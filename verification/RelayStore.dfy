/** The filesystem store (relay/internal/store/fs.go): files, index, usage and total, updated in place. */
module RelayStore {
  import opened Options
  import opened Bytes
  import opened BlobCodec
  import opened RelaySpec
  import opened RelayHeaders

  /** The files below the data directory. */
  datatype Path = BlobFile(key: Key) | TempFile(owner: ID, n: nat) | RelayKey

  type Disk = map<Path, seq<byte>>

  datatype Entry = Entry(expiresAt: Int64, size: int, sig: Bytes64)

  type Index = map<ID, map<Bytes32, Entry>>

  predicate Indexed(index: Index, key: Key) {
    key.owner in index && key.id in index[key.owner]
  }

  // ---------------------------------------------------------------- what ties the parts together

  ghost predicate FileHolds(disk: Disk, records: map<Key, Record>, key: Key) {
    && (BlobFile(key) in disk <==> key in records)
    && (key in records ==> disk[BlobFile(key)] == Encoded(records[key]))
  }

  ghost predicate DiskHolds(disk: Disk, records: map<Key, Record>) {
    forall key {:trigger FileHolds(disk, records, key)} :: FileHolds(disk, records, key)
  }

  ghost predicate EntryHolds(index: Index, records: map<Key, Record>, key: Key) {
    && (Indexed(index, key) <==> key in records)
    && (key in records ==>
          index[key.owner][key.id] == Entry(records[key].expiresAt, records[key].Size(), records[key].sig))
  }

  ghost predicate IndexHolds(index: Index, records: map<Key, Record>) {
    forall key {:trigger EntryHolds(index, records, key)} :: EntryHolds(index, records, key)
  }

  ghost predicate UsageEntryHolds(usage: map<ID, Usage>, s: Store, o: ID) {
    && (o in usage <==> o in s.known)
    && (o in usage ==> usage[o] == UsageOf(s.records, o))
  }

  ghost predicate UsageHolds(usage: map<ID, Usage>, s: Store) {
    forall o {:trigger UsageEntryHolds(usage, s, o)} :: UsageEntryHolds(usage, s, o)
  }

  ghost predicate Accounted(index: Index, usage: map<ID, Usage>, totalBytes: int, s: Store) {
    s.Ok() && IndexHolds(index, s.records) && UsageHolds(usage, s) && totalBytes == Total(s.records)
  }

  lemma DiskAdded(disk: Disk, records: map<Key, Record>, r: Record)
    requires DiskHolds(disk, records)
    ensures DiskHolds(disk[BlobFile(KeyOf(r)) := Encoded(r)], records[KeyOf(r) := r])
  {
    var after := disk[BlobFile(KeyOf(r)) := Encoded(r)];
    forall key {:trigger FileHolds(after, records[KeyOf(r) := r], key)}
      ensures FileHolds(after, records[KeyOf(r) := r], key)
    {
      assert FileHolds(disk, records, key);
    }
  }

  lemma DiskRemoved(disk: Disk, records: map<Key, Record>, k: Key)
    requires DiskHolds(disk, records)
    ensures DiskHolds(disk - {BlobFile(k)}, records - {k})
  {
    forall key {:trigger FileHolds(disk - {BlobFile(k)}, records - {k}, key)}
      ensures FileHolds(disk - {BlobFile(k)}, records - {k}, key)
    {
      assert FileHolds(disk, records, key);
    }
  }

  /** Temp files and the key file do not matter. */
  lemma DiskOthers(disk: Disk, after: Disk, records: map<Key, Record>)
    requires DiskHolds(disk, records)
    requires forall p: Path :: p.BlobFile? ==> (p in disk <==> p in after) && (p in disk ==> disk[p] == after[p])
    ensures DiskHolds(after, records)
  {
    forall key {:trigger FileHolds(after, records, key)} ensures FileHolds(after, records, key) {
      assert FileHolds(disk, records, key);
    }
  }

  function IndexAdd(index: Index, key: Key, e: Entry): Index {
    index[key.owner := (if key.owner in index then index[key.owner] else map[])[key.id := e]]
  }

  lemma IndexAdded(index: Index, records: map<Key, Record>, k: Key, r: Record)
    requires IndexHolds(index, records)
    ensures IndexHolds(IndexAdd(index, k, Entry(r.expiresAt, r.Size(), r.sig)), records[k := r])
  {
    var after := IndexAdd(index, k, Entry(r.expiresAt, r.Size(), r.sig));
    forall key {:trigger EntryHolds(after, records[k := r], key)} ensures EntryHolds(after, records[k := r], key) {
      assert EntryHolds(index, records, key);
    }
  }

  lemma IndexRemoved(index: Index, records: map<Key, Record>, k: Key)
    requires IndexHolds(index, records) && Indexed(index, k)
    ensures IndexHolds(index[k.owner := index[k.owner] - {k.id}], records - {k})
  {
    var after := index[k.owner := index[k.owner] - {k.id}];
    forall key {:trigger EntryHolds(after, records - {k}, key)} ensures EntryHolds(after, records - {k}, key) {
      assert EntryHolds(index, records, key);
    }
  }

  function UsageSubtract(usage: map<ID, Usage>, owner: ID, size: int): map<ID, Usage> {
    if owner in usage then usage[owner := Usage(usage[owner].bytes - size, usage[owner].count - 1)] else usage
  }

  lemma UsageAddedOwn(usage: map<ID, Usage>, s: Store, k: Key, r: Record)
    requires UsageEntryHolds(usage, s, k.owner) && s.Ok() && k !in s.records
    ensures UsageEntryHolds(UsageAdd(usage, k.owner, r.Size()), Store(s.records[k := r], s.known + {k.owner}), k.owner)
  {
    AddedOwn(s.records, k, r);
    if k.owner !in usage {
      NoRecordsNoUsage(s.records, k.owner);
    }
  }

  lemma UsageAdded(usage: map<ID, Usage>, s: Store, k: Key, r: Record)
    requires UsageHolds(usage, s) && s.Ok() && k !in s.records
    ensures UsageHolds(UsageAdd(usage, k.owner, r.Size()), Store(s.records[k := r], s.known + {k.owner}))
  {
    var after, next := UsageAdd(usage, k.owner, r.Size()), Store(s.records[k := r], s.known + {k.owner});
    forall o {:trigger UsageEntryHolds(after, next, o)} ensures UsageEntryHolds(after, next, o) {
      assert UsageEntryHolds(usage, s, o);
      if o == k.owner {
        UsageAddedOwn(usage, s, k, r);
      } else {
        AddedOther(s.records, k, r, o);
      }
    }
  }

  lemma UsageRemoved(usage: map<ID, Usage>, s: Store, k: Key)
    requires UsageHolds(usage, s) && k in s.records
    ensures UsageHolds(UsageSubtract(usage, k.owner, s.records[k].Size()), Store(s.records - {k}, s.known))
  {
    var after, next := UsageSubtract(usage, k.owner, s.records[k].Size()), Store(s.records - {k}, s.known);
    RemovedCounts(s.records, k);
    forall o {:trigger UsageEntryHolds(after, next, o)} ensures UsageEntryHolds(after, next, o) {
      assert UsageEntryHolds(usage, s, o);
    }
  }

  lemma AccountedAdded(index: Index, usage: map<ID, Usage>, totalBytes: int, s: Store, r: Record)
    requires Accounted(index, usage, totalBytes, s) && KeyOf(r) !in s.records && r.Storable()
    ensures Accounted(IndexAdd(index, KeyOf(r), Entry(r.expiresAt, r.Size(), r.sig)),
                      UsageAdd(usage, KeyOf(r).owner, r.Size()), totalBytes + r.Size(),
                      Store(s.records[KeyOf(r) := r], s.known + {IDOf(r.identity)}))
  {
    IndexAdded(index, s.records, KeyOf(r), r);
    UsageAdded(usage, s, KeyOf(r), r);
    AddedTotal(s.records, KeyOf(r), r);
  }

  lemma AccountedRemoved(index: Index, usage: map<ID, Usage>, totalBytes: int, s: Store, k: Key)
    requires Accounted(index, usage, totalBytes, s) && k in s.records && Indexed(index, k)
    ensures Accounted(index[k.owner := index[k.owner] - {k.id}], UsageSubtract(usage, k.owner, s.records[k].Size()),
                      totalBytes - s.records[k].Size(), Store(s.records - {k}, s.known))
  {
    IndexRemoved(index, s.records, k);
    UsageRemoved(usage, s, k);
    RemovedCounts(s.records, k);
  }

  // ---------------------------------------------------------------- the store

  /** The files after `putLocked`: its temp file is gone, and the record's file is there if the rename went through. */
  ghost function DiskAfterPut(disk: Disk, r: Record, n: nat, io: bool): Disk {
    var rest := disk - {TempFile(IDOf(r.identity), n)};
    if io then rest[BlobFile(KeyOf(r)) := Encoded(r)] else rest
  }

  /** A blob file whose header parses is a whole record under its own name; renaming whole files keeps it so. */
  ghost predicate FileWhole(disk: Disk, key: Key) {
    BlobFile(key) in disk && UnmarshalHeader(disk[BlobFile(key)]).Ok? ==>
      exists r: Record {:trigger Encoded(r)} :: r.Storable() && KeyOf(r) == key && disk[BlobFile(key)] == Encoded(r)
  }

  ghost predicate Recoverable(disk: Disk) {
    forall key {:trigger FileWhole(disk, key)} :: FileWhole(disk, key)
  }

  /** The files that survive opening: no temp files, no blob files with a broken header. */
  predicate Survives(disk: Disk, p: Path)
    requires p in disk
  {
    p.RelayKey? || (p.BlobFile? && UnmarshalHeader(disk[p]).Ok?)
  }

  ghost function Cleaned(disk: Disk): Disk {
    map p | p in disk && Survives(disk, p) :: disk[p]
  }

  /** The part of a directory that has been scanned. */
  ghost function Scanned(disk: Disk, todo: set<Path>): Disk {
    Cleaned(disk - todo)
  }

  lemma AllScanned(files: Disk, disk: Disk)
    requires disk - {} == Scanned(files, {})
    ensures disk == Cleaned(files) == Scanned(files, {})
  {
    assert disk - {} == disk && files - {} == files;
  }

  lemma ScannedKept(files: Disk, disk: Disk, todo: set<Path>, p: Path)
    requires p in files && Survives(files, p) && p in disk && disk[p] == files[p]
    requires disk - todo == Scanned(files, todo)
    ensures Scanned(files, todo - {p}) == Scanned(files, todo)[p := files[p]] == disk - (todo - {p})
  {
    assert disk - (todo - {p}) == (disk - todo)[p := files[p]];
  }

  lemma ScannedDropped(files: Disk, disk: Disk, todo: set<Path>, p: Path)
    requires p in files && !Survives(files, p) && disk - todo == Scanned(files, todo)
    ensures Scanned(files, todo - {p}) == Scanned(files, todo) == (disk - {p}) - (todo - {p})
  {
    assert (disk - {p}) - (todo - {p}) == disk - todo;
  }

  /** An entry of a record that is not stored yet. */
  ghost predicate IsNew(s: Store, r: Record, key: Key, e: Entry) {
    key == KeyOf(r) && key !in s.records && e == Entry(r.expiresAt, r.Size(), r.sig) && r.Storable()
  }

  /** The blob files whose header parses, with what it says. */
  ghost function Headed(disk: Disk): map<Path, Meta> {
    map p | p in disk && p.BlobFile? && UnmarshalHeader(disk[p]).Ok? :: UnmarshalHeader(disk[p]).value
  }

  function EntryOf(m: Meta): Entry {
    Entry(m.expiresAt, SizeOf(m), m.sig)
  }

  ghost predicate EntryNamed(heads: map<Path, Meta>, index: Index, key: Key) {
    && (Indexed(index, key) <==> exists p :: p in heads && Named(heads[p]) == key)
    && (Indexed(index, key) ==>
          exists p :: p in heads && Named(heads[p]) == key && index[key.owner][key.id] == EntryOf(heads[p]))
  }

  /** The index has exactly the records the headers name, each as one of its headers says. */
  ghost predicate HeadersIndexed(heads: map<Path, Meta>, index: Index) {
    forall key {:trigger EntryNamed(heads, index, key)} :: EntryNamed(heads, index, key)
  }

  /** All the store keeps in memory after the files with these headers have been seen. */
  ghost predicate Tallied(heads: map<Path, Meta>, index: Index, usage: map<ID, Usage>, totalBytes: int) {
    HeadersIndexed(heads, index) && Counted(heads, usage, totalBytes)
  }

  lemma HeaderAdded(heads: map<Path, Meta>, index: Index, p: Path, m: Meta)
    requires HeadersIndexed(heads, index) && p !in heads
    ensures HeadersIndexed(heads[p := m], IndexAdd(index, Named(m), EntryOf(m)))
  {
    var more, after := heads[p := m], IndexAdd(index, Named(m), EntryOf(m));
    forall key {:trigger EntryNamed(more, after, key)} ensures EntryNamed(more, after, key) {
      assert EntryNamed(heads, index, key);
      assert Indexed(after, key) <==> key == Named(m) || Indexed(index, key);
      if key == Named(m) {
        assert p in more && Named(more[p]) == key;
      } else if Indexed(index, key) {
        var q :| q in heads && Named(heads[q]) == key && index[key.owner][key.id] == EntryOf(heads[q]);
        assert q in more && more[q] == heads[q];
      }
    }
  }

  lemma HeadedAdd(disk: Disk, p: Path, data: seq<byte>)
    requires p !in disk
    ensures Headed(disk[p := data]) ==
            if p.BlobFile? && UnmarshalHeader(data).Ok? then Headed(disk)[p := UnmarshalHeader(data).value]
            else Headed(disk)
  {
  }

  /** The usage counts the records of an identity right exactly if no two files head the same one. */
  lemma UsageCountRightIff(heads: map<Path, Meta>, index: Index, usage: map<ID, Usage>, totalBytes: int, o: ID)
    requires Tallied(heads, index, usage, totalBytes) && o in usage
    ensures o in index
    ensures usage[o].count == |index[o]| <==> AllApart(heads, OwnedBy(heads, o))
  {
    assert UsageCounted(heads, usage, o);
    var p :| p in OwnedBy(heads, o);
    assert EntryNamed(heads, index, Named(heads[p]));
    forall id ensures id in index[o] <==> id in IdsIn(heads, OwnedBy(heads, o)) {
      assert EntryNamed(heads, index, Key(o, id));
      if q :| q in heads && Named(heads[q]) == Key(o, id) {
        assert q in OwnedBy(heads, o);
      }
    }
    assert index[o].Keys == IdsIn(heads, OwnedBy(heads, o));
    IdsApartIff(heads, OwnedBy(heads, o));
  }

  class FileStore {
    var disk: Disk
    var index: Index
    var usage: map<ID, Usage>
    var totalBytes: int
    const maxPayload: nat
    ghost var store: Store

    ghost predicate Valid()
      reads this
    {
      DiskHolds(disk, store.records) && Accounted(index, usage, totalBytes, store)
    }

    /** `indexAdd`, for a record if there is one. */
    method IndexEntry(ghost r: Option<Record>, key: Key, e: Entry)
      requires r.Some? ==> Accounted(index, usage, totalBytes, store) && IsNew(store, r.value, key, e)
      modifies this`index, this`usage, this`totalBytes, this`store
      ensures index == IndexAdd(old(index), key, e) && totalBytes == old(totalBytes) + e.size
      ensures usage == UsageAdd(old(usage), key.owner, e.size)
      ensures r.Some? ==> store == Store(old(store).records[key := r.value], old(store).known + {key.owner})
      ensures r.Some? ==> Accounted(index, usage, totalBytes, store)
    {
      if r.Some? {
        AccountedAdded(index, usage, totalBytes, store, r.value);
        store := Store(store.records[key := r.value], store.known + {key.owner});
      }
      index := IndexAdd(index, key, e);
      usage := UsageAdd(usage, key.owner, e.size);
      totalBytes := totalBytes + e.size;
    }

    /** The file part of `putLocked`: a temp file is written, then renamed to its place if `io` allows. */
    method WriteFile(r: Record, n: nat, io: bool)
      requires DiskHolds(disk, store.records)
      modifies this`disk
      ensures DiskHolds(disk, if io then store.records[KeyOf(r) := r] else store.records)
      ensures disk == DiskAfterPut(old(disk), r, n, io)
    {
      var temp := TempFile(IDOf(r.identity), n);
      var bytes := Marshal(r);
      disk := disk[temp := bytes];
      DiskOthers(old(disk), disk - {temp}, store.records);
      if io {
        DiskAdded(disk - {temp}, store.records, r);
        disk := (disk - {temp})[BlobFile(KeyOf(r)) := disk[temp]];
      } else {
        disk := disk - {temp};
      }
      assert old(disk)[temp := bytes] - {temp} == old(disk) - {temp};
    }

    /** `putLocked`. */
    method PutLocked(r: Record, n: nat, io: bool) returns (result: Result<(), StoreError>)
      requires Valid() && KeyOf(r) !in store.records && r.Storable()
      modifies this
      ensures Valid() && (store, result) == Added(old(store), r, io)
      ensures disk == DiskAfterPut(old(disk), r, n, io)
    {
      WriteFile(r, n, io);
      if !io {
        return Err(IoError);
      }
      IndexEntry(Some(r), KeyOf(r), Entry(r.expiresAt, r.Size(), r.sig));
      result := Ok(());
    }

    method PutWithin(r: Record, identityCap: int, totalCap: int, n: nat, io: bool)
      returns (result: Result<(), StoreError>)
      requires Valid() && r.Storable()
      modifies this
      ensures Valid() && (store, result) == RelaySpec.PutWithin(old(store), r, identityCap, totalCap, io)
    {
      var key := KeyOf(r);
      assert EntryHolds(index, store.records, key) && UsageEntryHolds(usage, store, key.owner);
      if Indexed(index, key) {
        return Err(Exists);
      }
      if key.owner in usage && usage[key.owner].bytes + r.Size() > identityCap {
        return Err(QuotaExceeded);
      }
      if totalBytes + r.Size() > totalCap {
        return Err(StorageFull);
      }
      result := PutLocked(r, n, io);
    }

    method Put(r: Record, n: nat, io: bool) returns (result: Result<(), StoreError>)
      requires Valid() && r.Storable()
      modifies this
      ensures Valid() && (store, result) == RelaySpec.Put(old(store), r, io)
    {
      assert EntryHolds(index, store.records, KeyOf(r));
      if Indexed(index, KeyOf(r)) {
        return Err(Exists);
      }
      result := PutLocked(r, n, io);
    }

    /** `deleteFile`. */
    method DeleteFile(key: Key, stuck: set<Key>) returns (result: Result<(), StoreError>)
      requires Valid()
      modifies this
      ensures Valid() && (store, result) == RelaySpec.Delete(old(store), key, stuck)
    {
      assert EntryHolds(index, store.records, key);
      if !Indexed(index, key) {
        return Err(NotFound);
      }
      if key in stuck {
        return Err(IoError);
      }
      var size := index[key.owner][key.id].size;
      DiskRemoved(disk, store.records, key);
      AccountedRemoved(index, usage, totalBytes, store, key);
      disk := disk - {BlobFile(key)};
      index := index[key.owner := index[key.owner] - {key.id}];
      usage := UsageSubtract(usage, key.owner, size);
      totalBytes := totalBytes - size;
      store := Store(store.records - {key}, store.known);
      result := Ok(());
    }

    method Get(pub: Bytes32, id: Bytes32, now: int, stuck: set<Key>) returns (result: Result<Record, StoreError>)
      requires Valid()
      modifies this
      ensures Valid() && (store, result) == RelaySpec.Get(old(store), Key(IDOf(pub), id), now, maxPayload, stuck)
    {
      var key := Key(IDOf(pub), id);
      assert EntryHolds(index, store.records, key) && FileHolds(disk, store.records, key);
      if !Indexed(index, key) {
        return Err(NotFound);
      }
      if index[key.owner][key.id].expiresAt <= now {
        var ignored := DeleteFile(key, stuck);
        return Err(Expired);
      }
      RecordRoundTrip(store.records[key], maxPayload);
      match Unmarshal(disk[BlobFile(key)], maxPayload) {
        case Ok(r) => result := Ok(r);
        case Err(e) => result := Err(Parse(e));
      }
    }

    /** `UsageID`: an identity without an entry uses nothing. */
    method UsageId(owner: ID) returns (u: Usage)
      requires Valid()
      ensures u == UsageOf(store.records, owner)
    {
      assert UsageEntryHolds(usage, store, owner);
      if owner in usage {
        return usage[owner];
      }
      NoRecordsNoUsage(store.records, owner);
      u := Usage(0, 0);
    }

    /** The first half of `Sweep`: the keys of all expired records. */
    method CollectDead(now: int) returns (dead: set<Key>)
      requires Valid()
      ensures dead == Dead(store, now)
    {
      dead := {};
      OwnersIndexed(index, store);
      var owners := index.Keys;
      while owners != {}
        invariant owners <= index.Keys
        invariant forall key :: key in dead <==> key in Dead(store, now) && key.owner !in owners
        decreases owners
      {
        var owner :| owner in owners;
        OwnerDone(index, store, owner);
        var ids := index[owner].Keys;
        while ids != {}
          invariant ids <= index[owner].Keys
          invariant forall key :: key in dead <==>
                      key in Dead(store, now) && (key.owner !in owners || (key.owner == owner && key.id !in ids))
          decreases ids
        {
          var id :| id in ids;
          assert EntryHolds(index, store.records, Key(owner, id));
          if index[owner][id].expiresAt <= now {
            dead := dead + {Key(owner, id)};
          }
          ids := ids - {id};
        }
        owners := owners - {owner};
      }
    }

    /** `Sweep`. */
    method Sweep(now: int, stuck: set<Key>) returns (count: nat)
      requires Valid()
      modifies this
      ensures Valid() && (store, count) == RelaySpec.Sweep(old(store), now, stuck)
    {
      var dead := CollectDead(now);
      var left := dead;
      while left != {}
        invariant Valid() && left <= dead && dead == Dead(old(store), now)
        invariant store == Store(old(store).records - ((dead - left) - stuck), old(store).known)
        decreases left
      {
        var key :| key in left;
        var ignored := DeleteFile(key, stuck);
        SweptOne(old(store).records, dead, left, stuck, key);
        left := left - {key};
      }
      assert dead - {} == dead;
      count := |dead|;
    }

    /** `OpenFS`: scans the files, drops leftovers and broken files, and builds index and usage from the headers. */
    constructor (files: Disk, limit: nat)
      ensures disk == Cleaned(files) && maxPayload == limit
      ensures Tallied(Headed(disk), index, usage, totalBytes)
      ensures Recoverable(files) ==> Valid() && store.known == set key | key in store.records :: key.owner
    {
      disk := files;
      index, usage, totalBytes := map[], map[], 0;
      maxPayload := limit;
      store := Store(map[], {});
      new;
      LoadAll(files);
    }

    /** What is known of the part that has been scanned, if all files are whole. */
    ghost predicate Loaded(scanned: Disk)
      reads this
    {
      && DiskHolds(scanned, store.records) && Accounted(index, usage, totalBytes, store)
      && store.known == set key | key in store.records :: key.owner
    }

    /** `load`. */
    method LoadAll(ghost files: Disk)
      requires disk == files && index == map[] && usage == map[] && totalBytes == 0 && store == Store(map[], {})
      modifies this`disk, this`index, this`usage, this`totalBytes, this`store
      ensures disk == Cleaned(files) && Tallied(Headed(disk), index, usage, totalBytes)
      ensures Recoverable(files) ==> Valid() && store.known == set key | key in store.records :: key.owner
    {
      EmptyAccounted();
      var todo := disk.Keys;
      assert files - todo == map[];
      while todo != {}
        invariant todo <= files.Keys && todo <= disk.Keys && disk - todo == Scanned(files, todo)
        invariant forall p :: p in todo ==> disk[p] == files[p]
        invariant Tallied(Headed(Scanned(files, todo)), index, usage, totalBytes)
        invariant Recoverable(files) ==> Loaded(Scanned(files, todo))
        decreases todo
      {
        var p :| p in todo;
        if p.BlobFile? && UnmarshalHeader(disk[p]).Ok? {
          ScannedKept(files, disk, todo, p);
          LoadFile(files, todo, p.key);
        } else if p.RelayKey? {
          ScannedKept(files, disk, todo, p);
          HeadedAdd(Scanned(files, todo), p, files[p]);
          if Recoverable(files) {
            DiskOthers(Scanned(files, todo), Scanned(files, todo - {p}), store.records);
          }
        } else {
          ScannedDropped(files, disk, todo, p);
          disk := disk - {p};
        }
        todo := todo - {p};
      }
      AllScanned(files, disk);
    }

    /** One blob file with a good header. */
    method LoadFile(ghost files: Disk, ghost todo: set<Path>, key: Key)
      requires BlobFile(key) in todo && todo <= files.Keys
      requires BlobFile(key) in disk && disk[BlobFile(key)] == files[BlobFile(key)]
      requires UnmarshalHeader(files[BlobFile(key)]).Ok?
      requires Tallied(Headed(Scanned(files, todo)), index, usage, totalBytes)
      requires Recoverable(files) ==> Loaded(Scanned(files, todo))
      modifies this`index, this`usage, this`totalBytes, this`store
      ensures var next := Scanned(files, todo)[BlobFile(key) := files[BlobFile(key)]];
              Tallied(Headed(next), index, usage, totalBytes) && (Recoverable(files) ==> Loaded(next))
    {
      var m := UnmarshalHeader(disk[BlobFile(key)]).value;
      HeadedAdd(Scanned(files, todo), BlobFile(key), files[BlobFile(key)]);
      HeaderAdded(Headed(Scanned(files, todo)), index, BlobFile(key), m);
      CountedAdd(Headed(Scanned(files, todo)), usage, totalBytes, BlobFile(key), m);
      ghost var whole: Option<Record> := None;
      if Recoverable(files) {
        ghost var r := WholeRecord(files, key);
        NotYetScanned(files, todo, store.records, key);
        DiskAdded(Scanned(files, todo), store.records, r);
        whole := Some(r);
      }
      IndexEntry(whole, Named(m), EntryOf(m));
    }
  }

  lemma WholeRecord(files: Disk, key: Key) returns (r: Record)
    requires Recoverable(files) && BlobFile(key) in files && UnmarshalHeader(files[BlobFile(key)]).Ok?
    ensures r.Storable() && KeyOf(r) == key && files[BlobFile(key)] == Encoded(r)
    ensures UnmarshalHeader(files[BlobFile(key)]) == Ok(MetaOf(r))
  {
    assert FileWhole(files, key);
    r :| r.Storable() && KeyOf(r) == key && files[BlobFile(key)] == Encoded(r);
    HeaderRoundTrip(r, r.payload);
  }

  lemma NotYetScanned(files: Disk, todo: set<Path>, records: map<Key, Record>, key: Key)
    requires DiskHolds(Scanned(files, todo), records) && BlobFile(key) in todo
    ensures key !in records
  {
    assert FileHolds(Scanned(files, todo), records, key);
  }

  lemma EmptyAccounted()
    ensures Accounted(map[], map[], 0, Store(map[], {})) && Tallied(Headed(map[]), map[], map[], 0)
  {
    var none: map<Key, Record> := map[];
    assert none.Keys == {};
    assert Headed(map[]) == map[] && forall o :: OwnedBy(Headed(map[]), o) == {};
  }

  lemma OwnersIndexed(index: Index, s: Store)
    requires IndexHolds(index, s.records)
    ensures forall key :: key in s.records ==> key.owner in index
  {
    forall key | key in s.records ensures key.owner in index {
      assert EntryHolds(index, s.records, key);
    }
  }

  lemma OwnerDone(index: Index, s: Store, owner: ID)
    requires IndexHolds(index, s.records) && owner in index
    ensures forall key :: key in s.records && key.owner == owner ==> key.id in index[owner]
  {
    forall key | key in s.records && key.owner == owner ensures key.id in index[owner] {
      assert EntryHolds(index, s.records, key);
    }
  }

  lemma SweptOne(records: map<Key, Record>, dead: set<Key>, left: set<Key>, stuck: set<Key>, key: Key)
    requires key in left && left <= dead <= records.Keys
    ensures key in records - ((dead - left) - stuck)
    ensures records - ((dead - (left - {key})) - stuck) ==
            if key in stuck then records - ((dead - left) - stuck) else (records - ((dead - left) - stuck)) - {key}
  {
  }

  // ---------------------------------------------------------------- closing, crashing, opening

  /** The files determine the records. */
  lemma DiskDetermines(disk: Disk, a: map<Key, Record>, b: map<Key, Record>)
    requires DiskHolds(disk, a) && DiskHolds(disk, b)
    requires forall key :: key in a ==> a[key].Storable()
    ensures a == b
  {
    forall key ensures key in a <==> key in b {
      assert FileHolds(disk, a, key) && FileHolds(disk, b, key);
    }
    forall key | key in a ensures a[key] == b[key] {
      assert FileHolds(disk, a, key) && FileHolds(disk, b, key);
      EncodedInjective(a[key], b[key]);
    }
  }

  /** The files of an open store can be opened again, and nothing of the records is cleaned away. */
  lemma ValidIsRecoverable(disk: Disk, s: Store)
    requires DiskHolds(disk, s.records) && s.Ok()
    ensures Recoverable(disk) && DiskHolds(Cleaned(disk), s.records)
  {
    forall key {:trigger FileWhole(disk, key)} ensures FileWhole(disk, key) {
      assert FileHolds(disk, s.records, key);
    }
    forall key {:trigger FileHolds(Cleaned(disk), s.records, key)} ensures FileHolds(Cleaned(disk), s.records, key) {
      assert FileHolds(disk, s.records, key);
      if key in s.records {
        HeaderRoundTrip(s.records[key], s.records[key].payload);
      }
    }
  }

  ghost function WholeOf(disk: Disk, key: Key): (r: Record)
    requires Recoverable(disk) && BlobFile(key) in disk && UnmarshalHeader(disk[BlobFile(key)]).Ok?
    ensures r.Storable() && KeyOf(r) == key && disk[BlobFile(key)] == Encoded(r)
  {
    assert FileWhole(disk, key);
    var r: Record :| r.Storable() && KeyOf(r) == key && disk[BlobFile(key)] == Encoded(r);
    r
  }

  /** What opening leaves is some set of records if and only if every file with a good header is a whole record. */
  lemma OpensWholeIff(disk: Disk)
    ensures (exists s: Store :: s.Ok() && DiskHolds(Cleaned(disk), s.records)) <==> Recoverable(disk)
  {
    if s: Store :| s.Ok() && DiskHolds(Cleaned(disk), s.records) {
      forall key {:trigger FileWhole(disk, key)} ensures FileWhole(disk, key) {
        assert FileHolds(Cleaned(disk), s.records, key);
      }
    }
    if Recoverable(disk) {
      var keys := set p | p in Cleaned(disk) && p.BlobFile? :: p.key;
      var records := map key | key in keys :: WholeOf(disk, key);
      forall key {:trigger FileHolds(Cleaned(disk), records, key)} ensures FileHolds(Cleaned(disk), records, key) {
        assert BlobFile(key) in Cleaned(disk) <==> key in keys;
      }
      var s := Store(records, set key | key in keys :: key.owner);
      assert s.Ok() && DiskHolds(Cleaned(disk), s.records);
    }
  }

  /** A record whose payload was cut short is indexed when the store is opened, and every read of it fails. */
  lemma CutRecordIsIndexed(r: Record, length: nat, maxPayload: nat)
    requires r.Storable() && |r.payload| <= maxPayload && HEADER_SIZE <= length < r.Size()
    ensures |Encoded(r)| == r.Size()
    ensures var p, data := BlobFile(KeyOf(r)), Encoded(r)[..length];
            && Cleaned(map[p := data]) == map[p := data] && Headed(map[p := data]) == map[p := MetaOf(r)]
            && !Recoverable(map[p := data]) && Unmarshal(data, maxPayload) == Err(Truncated)
  {
    var p, data := BlobFile(KeyOf(r)), Encoded(r)[..length];
    HeaderParts(r);
    assert data == Header(r) + r.payload[..length - HEADER_SIZE];
    HeaderRoundTrip(r, r.payload[..length - HEADER_SIZE]);
    assert !FileWhole(map[p := data], KeyOf(r)) by {
      if s: Record :| s.Storable() && data == Encoded(s) {
        HeaderRoundTrip(s, s.payload);
        HeaderParts(s);
      }
    }
  }

  /** Closing and opening again gives the same records and the same accounting. */
  method OpenAgain(files: FileStore) returns (reopened: FileStore)
    requires files.Valid()
    ensures fresh(reopened) && reopened.Valid() && reopened.maxPayload == files.maxPayload
    ensures reopened.store == Reopen(files.store)
  {
    ValidIsRecoverable(files.disk, files.store);
    reopened := new FileStore(files.disk, files.maxPayload);
    DiskDetermines(reopened.disk, reopened.store.records, files.store.records);
  }

  /** The files at some moment of a put: part of the temp file is written, or it has just been renamed. */
  ghost function DiskDuringPut(disk: Disk, r: Record, n: nat, written: nat, renamed: bool): Disk
    requires written <= |Encoded(r)|
  {
    var temp := TempFile(IDOf(r.identity), n);
    if renamed then (disk - {temp})[BlobFile(KeyOf(r)) := Encoded(r)] else disk[temp := Encoded(r)[..written]]
  }

  /** A crash at any moment of a put leaves files that open as the store before it or the store after it. */
  lemma CrashDuringPut(disk: Disk, s: Store, r: Record, n: nat, written: nat, renamed: bool)
    requires DiskHolds(disk, s.records) && s.Ok() && r.Storable() && written <= |Encoded(r)|
    ensures var crashed := DiskDuringPut(disk, r, n, written, renamed);
            && Recoverable(crashed)
            && DiskHolds(Cleaned(crashed), if renamed then s.records[KeyOf(r) := r] else s.records)
  {
    var temp := TempFile(IDOf(r.identity), n);
    if renamed {
      DiskOthers(disk, disk - {temp}, s.records);
      DiskAdded(disk - {temp}, s.records, r);
      ValidIsRecoverable(DiskDuringPut(disk, r, n, written, renamed),
                         Store(s.records[KeyOf(r) := r], s.known + {IDOf(r.identity)}));
    } else {
      DiskOthers(disk, disk[temp := Encoded(r)[..written]], s.records);
      ValidIsRecoverable(DiskDuringPut(disk, r, n, written, renamed), s);
    }
  }
}
