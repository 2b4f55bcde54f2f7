/** What `createZip` writes, a reader recovers. */
module ZipRoundTrip {
  import opened Options
  import opened Bytes
  import opened Crc32
  import opened ZipFormat

  // ---------------------------------------------------------------- one record

  /** What both headers of an entry say of it, from the version field to the name length. */
  function Said(e: Prepared): seq<byte> {
    LE16(20) + LE16(0x0800) + LE16(0) + LE16(e.time) + LE16(e.date) + LE32(e.crc) + LE32(|e.data|) + LE32(|e.data|)
    + LE16(|e.name|) + LE16(0)
  }

  /** The name and the time stamp fit their fields. */
  predicate Fits(e: Prepared) {
    |e.name| < 0x1_0000 && e.time < 0x1_0000 && e.date < 0x1_0000
  }

  /** What a reader should get of an entry. */
  function ContentOf(e: Prepared): Extracted {
    Extracted(e.name, e.data, e.time, e.date)
  }

  /** What the reader sees in a local record. */
  ghost predicate LocalSeen(z: seq<byte>, at: nat, e: Prepared) {
    && at + 30 <= |z| && U32(z, at) == 0x04034b50 && U16(z, at + 28) == 0
    && U16(z, at + 4) == 20 && U16(z, at + 6) == 0x0800 && U16(z, at + 8) == 0
    && U16(z, at + 10) == e.time && U16(z, at + 12) == e.date && U32(z, at + 14) == e.crc
    && U32(z, at + 18) == U32(z, at + 22) == |e.data| && U16(z, at + 26) == |e.name|
    && Occurs(z, at + 30, e.name) && Occurs(z, at + 30 + |e.name|, e.data)
  }

  /** What the reader sees in a central record. */
  ghost predicate CentralSeen(z: seq<byte>, pos: nat, e: Prepared, offset: nat) {
    && pos + 46 <= |z| && U32(z, pos) == 0x02014b50 && IsPlainFile(z, pos)
    && U16(z, pos + 6) == 20 && U16(z, pos + 12) == e.time && U16(z, pos + 14) == e.date
    && U32(z, pos + 16) == e.crc && U32(z, pos + 20) == |e.data|
    && U16(z, pos + 28) == |e.name| && U16(z, pos + 30) == 0 && U16(z, pos + 32) == 0
    && U32(z, pos + 42) == offset && Occurs(z, pos + 46, e.name)
  }

  lemma SaidParts(e: Prepared)
    ensures var h := Said(e);
            && |h| == 26 && h[0..2] == LE16(20) && h[2..4] == LE16(0x0800) && h[4..6] == LE16(0)
            && h[6..8] == LE16(e.time) && h[8..10] == LE16(e.date) && h[10..14] == LE32(e.crc)
            && h[14..18] == LE32(|e.data|) && h[18..22] == LE32(|e.data|)
            && h[22..24] == LE16(|e.name|) && h[24..26] == LE16(0)
  {
  }

  /** The 16-bit fields of what a header says. */
  lemma SeeSaid16(z: seq<byte>, at: nat, e: Prepared)
    requires Occurs(z, at, Said(e)) && Fits(e)
    ensures at + 26 <= |z|
    ensures U16(z, at) == 20 && U16(z, at + 2) == 0x0800 && U16(z, at + 4) == 0
    ensures U16(z, at + 6) == e.time && U16(z, at + 8) == e.date
    ensures U16(z, at + 22) == |e.name| && U16(z, at + 24) == 0
  {
    SaidParts(e);
    SeeParts16(z, at, e, Said(e));
  }

  lemma SeeParts16(z: seq<byte>, at: nat, e: Prepared, h: seq<byte>)
    requires Occurs(z, at, h) && Fits(e) && |h| == 26
    requires h[0..2] == LE16(20) && h[2..4] == LE16(0x0800) && h[4..6] == LE16(0)
    requires h[6..8] == LE16(e.time) && h[8..10] == LE16(e.date)
    requires h[22..24] == LE16(|e.name|) && h[24..26] == LE16(0)
    ensures at + 26 <= |z|
    ensures U16(z, at) == 20 && U16(z, at + 2) == 0x0800 && U16(z, at + 4) == 0
    ensures U16(z, at + 6) == e.time && U16(z, at + 8) == e.date
    ensures U16(z, at + 22) == |e.name| && U16(z, at + 24) == 0
  {
    Part16(z, at, h, 0, 20);
    Part16(z, at, h, 2, 0x0800);
    Part16(z, at, h, 4, 0);
    Part16(z, at, h, 6, e.time);
    Part16(z, at, h, 8, e.date);
    Part16(z, at, h, 22, |e.name|);
    Part16(z, at, h, 24, 0);
  }

  /** Its 32-bit fields. */
  lemma SeeSaid32(z: seq<byte>, at: nat, e: Prepared)
    requires Occurs(z, at, Said(e)) && e.crc < 0x1_0000_0000 && |e.data| < 0x1_0000_0000
    ensures at + 26 <= |z|
    ensures U32(z, at + 10) == e.crc && U32(z, at + 14) == U32(z, at + 18) == |e.data|
  {
    SaidParts(e);
    SeeParts32(z, at, e, Said(e));
  }

  lemma SeeParts32(z: seq<byte>, at: nat, e: Prepared, h: seq<byte>)
    requires Occurs(z, at, h) && e.crc < 0x1_0000_0000 && |e.data| < 0x1_0000_0000 && |h| == 26
    requires h[10..14] == LE32(e.crc) && h[14..18] == LE32(|e.data|) && h[18..22] == LE32(|e.data|)
    ensures at + 26 <= |z|
    ensures U32(z, at + 10) == e.crc && U32(z, at + 14) == U32(z, at + 18) == |e.data|
  {
    Part32(z, at, h, 10, e.crc);
    Part32(z, at, h, 14, |e.data|);
    Part32(z, at, h, 18, |e.data|);
  }

  lemma LocalHeaderParts(e: Prepared)
    ensures |LocalHeader(e)| == 30 && LocalHeader(e) == LE32(0x04034b50) + Said(e)
  {
  }

  lemma SeeLocal(z: seq<byte>, at: nat, e: Prepared)
    requires Occurs(z, at, LocalRecord(e)) && Fits(e) && e.crc < 0x1_0000_0000 && |e.data| < 0x1_0000_0000
    ensures LocalSeen(z, at, e)
  {
    LocalHeaderParts(e);
    SaidParts(e);
    SeeLocalParts(z, at, e, Said(e));
    SeeSaid16(z, at + 4, e);
    SeeSaid32(z, at + 4, e);
  }

  lemma SeeLocalParts(z: seq<byte>, at: nat, e: Prepared, said: seq<byte>)
    requires Occurs(z, at, LE32(0x04034b50) + said + e.name + e.data) && |said| == 26
    ensures at + 30 <= |z| && U32(z, at) == 0x04034b50 && Occurs(z, at + 4, said)
    ensures Occurs(z, at + 30, e.name) && Occurs(z, at + 30 + |e.name|, e.data)
  {
    var h := LE32(0x04034b50) + said;
    Halves(z, at, h + e.name, e.data);
    Halves(z, at, h, e.name);
    Halves(z, at, LE32(0x04034b50), said);
    ReadU32(z, at, 0x04034b50);
  }

  /** A central header: its signature, the version it was made by, what it says, no comment and attributes, a place. */
  lemma CentralHeaderParts(e: Prepared, offset: nat)
    ensures |CentralHeader(e, offset)| == 46
    ensures CentralHeader(e, offset) ==
            LE32(0x02014b50) + LE16(20) + Said(e) + LE16(0) + LE16(0) + LE16(0) + LE32(0) + LE32(offset)
  {
    var front := LE32(0x02014b50) + LE16(20) + LE16(20) + LE16(0x0800) + LE16(0) + LE16(e.time) + LE16(e.date)
      + LE32(e.crc) + LE32(|e.data|) + LE32(|e.data|) + LE16(|e.name|) + LE16(0);
    assert front == LE32(0x02014b50) + LE16(20) + Said(e);
    assert CentralHeader(e, offset) == front + LE16(0) + LE16(0) + LE16(0) + LE32(0) + LE32(offset);
  }

  lemma SeeCentral(z: seq<byte>, pos: nat, e: Prepared, offset: nat)
    requires Occurs(z, pos, CentralRecord(e, offset)) && Fits(e)
    requires e.crc < 0x1_0000_0000 && |e.data| < 0x1_0000_0000 && offset < 0x1_0000_0000
    ensures CentralSeen(z, pos, e, offset)
  {
    CentralHeaderParts(e, offset);
    SaidParts(e);
    SeeCentralParts(z, pos, e, offset, Said(e));
    SeeSaid16(z, pos + 6, e);
    SeeSaid32(z, pos + 6, e);
  }

  lemma SeeCentralParts(z: seq<byte>, pos: nat, e: Prepared, offset: nat, said: seq<byte>)
    requires Occurs(z, pos, LE32(0x02014b50) + LE16(20) + said + LE16(0) + LE16(0) + LE16(0) + LE32(0) + LE32(offset)
                            + e.name)
    requires |said| == 26 && offset < 0x1_0000_0000
    ensures pos + 46 <= |z| && U32(z, pos) == 0x02014b50 && U16(z, pos + 4) == 20 && Occurs(z, pos + 6, said)
    ensures U16(z, pos + 32) == 0 && U16(z, pos + 34) == 0 && U16(z, pos + 36) == 0 && U32(z, pos + 38) == 0
    ensures U32(z, pos + 42) == offset && Occurs(z, pos + 46, e.name)
  {
    SeeTail(z, pos, LE32(0x02014b50) + LE16(20) + said, offset, e.name);
    Halves(z, pos, LE32(0x02014b50) + LE16(20), said);
    Halves(z, pos, LE32(0x02014b50), LE16(20));
    ReadU32(z, pos, 0x02014b50);
    ReadU16(z, pos + 4, 20);
  }

  lemma SeeTail(z: seq<byte>, pos: nat, h: seq<byte>, offset: nat, name: seq<byte>)
    requires Occurs(z, pos, h + LE16(0) + LE16(0) + LE16(0) + LE32(0) + LE32(offset) + name)
    requires |h| == 32 && offset < 0x1_0000_0000
    ensures Occurs(z, pos, h) && pos + 46 <= |z|
    ensures U16(z, pos + 32) == 0 && U16(z, pos + 34) == 0 && U16(z, pos + 36) == 0 && U32(z, pos + 38) == 0
    ensures U32(z, pos + 42) == offset && Occurs(z, pos + 46, name)
  {
    Halves(z, pos, h + LE16(0) + LE16(0) + LE16(0) + LE32(0) + LE32(offset), name);
    Halves(z, pos, h + LE16(0) + LE16(0) + LE16(0) + LE32(0), LE32(offset));
    Halves(z, pos, h + LE16(0) + LE16(0) + LE16(0), LE32(0));
    Halves(z, pos, h + LE16(0) + LE16(0), LE16(0));
    Halves(z, pos, h + LE16(0), LE16(0));
    Halves(z, pos, h, LE16(0));
    ReadU16(z, pos + 32, 0);
    ReadU16(z, pos + 34, 0);
    ReadU16(z, pos + 36, 0);
    ReadU32(z, pos + 38, 0);
    ReadU32(z, pos + 42, offset);
  }

  lemma Cut16(z: seq<byte>, pos: nat, h: seq<byte>, k: nat, v: nat)
    requires Occurs(z, pos, h) && k + 2 <= |h| && h[k..k + 2] == LE16(v)
    ensures pos + k + 2 <= |z| && U16(z, pos + k) == v % 0x1_0000
  {
    Slice(z, pos, h, k, k + 2);
    ReadU16(z, pos + k, v);
  }

  lemma Cut32(z: seq<byte>, pos: nat, h: seq<byte>, k: nat, v: nat)
    requires Occurs(z, pos, h) && k + 4 <= |h| && h[k..k + 4] == LE32(v)
    ensures pos + k + 4 <= |z| && U32(z, pos + k) == v % 0x1_0000_0000
  {
    Slice(z, pos, h, k, k + 4);
    ReadU32(z, pos + k, v);
  }

  lemma Part16(z: seq<byte>, pos: nat, h: seq<byte>, k: nat, v: nat)
    requires Occurs(z, pos, h) && k + 2 <= |h| && h[k..k + 2] == LE16(v) && v < 0x1_0000
    ensures pos + k + 2 <= |z| && U16(z, pos + k) == v
  {
    Cut16(z, pos, h, k, v);
  }

  lemma Part32(z: seq<byte>, pos: nat, h: seq<byte>, k: nat, v: nat)
    requires Occurs(z, pos, h) && k + 4 <= |h| && h[k..k + 4] == LE32(v) && v < 0x1_0000_0000
    ensures pos + k + 4 <= |z| && U32(z, pos + k) == v
  {
    Cut32(z, pos, h, k, v);
  }

  lemma EndParts(count: nat, size: nat, start: nat)
    ensures var h := EndRecord(count, size, start);
            && |h| == 22 && h[0..4] == LE32(0x06054b50) && h[4..6] == h[6..8] == LE16(0) && h[8..10] == h[10..12]
            && h[10..12] == LE16(count) && h[12..16] == LE32(size)
            && h[16..20] == LE32(start) && h[20..22] == LE16(0)
  {
  }

  // ---------------------------------------------------------------- the reader on what it sees

  /** What the central record of an entry says. */
  function CentralOf(e: Prepared, pos: nat, offset: nat): Central {
    Central(e.name, 20, e.time, e.date, e.crc, |e.data|, offset, pos + 46 + |e.name|)
  }

  lemma CentralFound(z: seq<byte>, pos: nat, e: Prepared, offset: nat)
    requires CentralSeen(z, pos, e, offset)
    ensures ReadCentral(z, pos) == Some(CentralOf(e, pos, offset))
  {
    assert z[pos + 46..pos + 46 + U16(z, pos + 28)] == e.name;
  }

  lemma ReadCentralFinds(z: seq<byte>, pos: nat, e: Prepared, offset: nat)
    requires Occurs(z, pos, CentralRecord(e, offset)) && Fits(e)
    requires e.crc < 0x1_0000_0000 && |e.data| < 0x1_0000_0000 && offset < 0x1_0000_0000
    ensures ReadCentral(z, pos) == Some(CentralOf(e, pos, offset))
  {
    SeeCentral(z, pos, e, offset);
    CentralFound(z, pos, e, offset);
  }

  lemma DataFound(z: seq<byte>, e: Prepared, c: Central)
    requires LocalSeen(z, c.offset, e) && Repeats(z, c.offset, c) && c.name == e.name && c.size == |e.data|
    ensures ReadLocal(z, c) == Checked(e.data, c.crc)
  {
  }

  lemma LocalFound(z: seq<byte>, e: Prepared, pos: nat, offset: nat)
    requires LocalSeen(z, offset, e) && e.crc == FromBits(Checksum(e.data))
    ensures ReadLocal(z, CentralOf(e, pos, offset)) == Some(e.data)
  {
    DataFound(z, e, CentralOf(e, pos, offset));
  }

  lemma ReadLocalFinds(z: seq<byte>, e: Prepared, pos: nat, offset: nat)
    requires Occurs(z, offset, LocalRecord(e)) && Fits(e) && |e.data| < 0x1_0000_0000
    requires e.crc == FromBits(Checksum(e.data)) < 0x1_0000_0000
    ensures ReadLocal(z, CentralOf(e, pos, offset)) == Some(e.data)
  {
    SeeLocal(z, offset, e);
    LocalFound(z, e, pos, offset);
  }

  lemma EntryFollows(z: seq<byte>, pos: nat, c: Central, data: seq<byte>)
    requires ReadCentral(z, pos) == Some(c) && ReadLocal(z, c) == Some(data)
    ensures EntryReader(z)(pos) == Some((Extracted(c.name, data, c.time, c.date), c.next))
  {
  }

  lemma RecordLengths(e: Prepared, offset: nat)
    ensures |LocalRecord(e)| == 30 + |e.name| + |e.data| && |CentralRecord(e, offset)| == 46 + |e.name|
  {
    LocalHeaderParts(e);
    CentralHeaderParts(e, offset);
  }

  /** The places of the records in an archive, and what a reader should get. */
  datatype Plan = Plan(at: seq<nat>, offsets: seq<nat>, contents: seq<Extracted>) {
    ghost predicate Fits(ps: seq<Prepared>) {
      |at| == |ps| + 1 && |offsets| == |contents| == |ps|
    }
  }

  /** Entry `i` has its central record at `at[i]`, just before `at[i + 1]`, and its local record at `offsets[i]`. */
  ghost predicate EntrySeen(z: seq<byte>, ps: seq<Prepared>, plan: Plan, i: nat)
    requires plan.Fits(ps) && i < |ps|
  {
    var c := CentralOf(ps[i], plan.at[i], plan.offsets[i]);
    && ReadCentral(z, plan.at[i]) == Some(c) && ReadLocal(z, c) == Some(ps[i].data)
    && plan.at[i + 1] == c.next && plan.contents[i] == ContentOf(ps[i])
  }

  ghost predicate AllSeen(z: seq<byte>, ps: seq<Prepared>, plan: Plan) {
    && plan.Fits(ps)
    && forall i {:trigger EntrySeen(z, ps, plan, i)} :: 0 <= i < |ps| ==> EntrySeen(z, ps, plan, i)
  }

  /** Reading from record `i` on gives the contents from `i` on. */
  lemma {:induction false} ReadManyFinds<T>(read: nat -> Option<(T, nat)>, at: seq<nat>, contents: seq<T>, i: nat)
    requires |at| == |contents| + 1 && i <= |contents|
    requires forall k :: 0 <= k < |contents| ==> read(at[k]) == Some((contents[k], at[k + 1]))
    ensures ReadMany(read, at[i], |contents| - i) == Some(contents[i..])
    decreases |contents| - i
  {
    if i < |contents| {
      ReadManyFinds(read, at, contents, i + 1);
      assert contents[i..] == [contents[i]] + contents[i + 1..];
    } else {
      assert contents[i..] == [];
    }
  }

  // ---------------------------------------------------------------- where the records are

  lemma {:induction false} ConcatOccurs(parts: seq<seq<byte>>, i: nat)
    requires i < |parts|
    ensures Occurs(Concat(parts), |Concat(parts[..i])|, parts[i])
    decreases |parts|
  {
    var n := |parts| - 1;
    if i < n {
      ConcatOccurs(parts[..n], i);
      assert parts[..n][..i] == parts[..i];
      Longer(Concat(parts[..n]), parts[n], |Concat(parts[..i])|, parts[i]);
    }
  }

  /** The `i`th part of each list inside `a`, `b` and `end` written one after the other. */
  lemma PartsOccur(a: seq<seq<byte>>, b: seq<seq<byte>>, end: seq<byte>, i: nat)
    requires i < |a| == |b|
    ensures Occurs(Concat(a) + Concat(b) + end, |Concat(a[..i])|, a[i])
    ensures Occurs(Concat(a) + Concat(b) + end, |Concat(a)| + |Concat(b[..i])|, b[i])
  {
    ConcatOccurs(a, i);
    Longer(Concat(a), Concat(b), |Concat(a[..i])|, a[i]);
    Longer(Concat(a) + Concat(b), end, |Concat(a[..i])|, a[i]);
    ConcatOccurs(b, i);
    Shifted(Concat(a), Concat(b), |Concat(b[..i])|, b[i]);
    Longer(Concat(a) + Concat(b), end, |Concat(a)| + |Concat(b[..i])|, b[i]);
  }

  lemma ConcatPush(parts: seq<seq<byte>>, i: nat)
    requires i < |parts|
    ensures Concat(parts[..i + 1]) == Concat(parts[..i]) + parts[i]
  {
    assert parts[..i + 1][..i] == parts[..i];
  }

  // ---------------------------------------------------------------- round trip

  ghost predicate AllFit(ps: seq<Prepared>) {
    forall i :: 0 <= i < |ps| ==> Fits(ps[i])
  }

  /** The limits of the format: 16-bit counts, name lengths and stamps, 32-bit sizes and places of the two parts. */
  ghost predicate WithinLimits(ps: seq<Prepared>) {
    && |ps| < 0x1_0000 && AllFit(ps)
    && |Concat(LocalRecords(ps))| < 0x1_0000_0000 && |Concat(CentralRecords(ps))| < 0x1_0000_0000
  }

  ghost predicate ChecksumsRight(ps: seq<Prepared>) {
    forall i :: 0 <= i < |ps| ==> ps[i].crc == FromBits(Checksum(ps[i].data))
  }

  /** What a reader should get. */
  function Contents(ps: seq<Prepared>): (contents: seq<Extracted>)
    ensures |contents| == |ps|
  {
    seq(|ps|, i requires 0 <= i < |ps| => ContentOf(ps[i]))
  }

  /** Where each part begins when they are written one after the other from `start` on, and where the last ends. */
  function Starts(parts: seq<seq<byte>>, start: nat): (starts: seq<nat>)
    ensures |starts| == |parts| + 1
  {
    seq(|parts| + 1, i requires 0 <= i < |parts| + 1 => start + |Concat(parts[..i])|)
  }

  ghost function PlanOf(ps: seq<Prepared>): (plan: Plan)
    ensures plan.Fits(ps)
  {
    Plan(Starts(CentralRecords(ps), |Concat(LocalRecords(ps))|), Starts(LocalRecords(ps), 0)[..|ps|], Contents(ps))
  }

  lemma CrcBound(data: seq<byte>)
    ensures FromBits(Checksum(data)) < 0x1_0000_0000
  {
    FromBitsBound(Checksum(data));
    assert Power2(8) == 256;
    assert Power2(16) == 65536;
    assert Power2(24) == 16777216;
  }

  lemma ReadRecords(z: seq<byte>, e: Prepared, pos: nat, offset: nat)
    requires Occurs(z, pos, CentralRecord(e, offset)) && Occurs(z, offset, LocalRecord(e))
    requires Fits(e) && |e.data| < 0x1_0000_0000 && offset < 0x1_0000_0000 && e.crc == FromBits(Checksum(e.data))
    ensures ReadCentral(z, pos) == Some(CentralOf(e, pos, offset))
    ensures ReadLocal(z, CentralOf(e, pos, offset)) == Some(e.data)
  {
    CrcBound(e.data);
    ReadCentralFinds(z, pos, e, offset);
    ReadLocalFinds(z, e, pos, offset);
  }

  /** Entry `i`, given its two records and the archive as a plain byte sequence. */
  lemma SeeEntry(z: seq<byte>, ps: seq<Prepared>, plan: Plan, i: nat)
    requires plan.Fits(ps) && i < |ps| && Fits(ps[i])
    requires plan.offsets[i] + |LocalRecord(ps[i])| < 0x1_0000_0000
    requires Occurs(z, plan.offsets[i], LocalRecord(ps[i]))
    requires Occurs(z, plan.at[i], CentralRecord(ps[i], plan.offsets[i]))
    requires plan.at[i + 1] == plan.at[i] + |CentralRecord(ps[i], plan.offsets[i])|
    requires ps[i].crc == FromBits(Checksum(ps[i].data)) && plan.contents[i] == ContentOf(ps[i])
    ensures EntrySeen(z, ps, plan, i)
  {
    RecordLengths(ps[i], plan.offsets[i]);
    ReadRecords(z, ps[i], plan.at[i], plan.offsets[i]);
  }

  /** Every entry of an archive is where the reader looks for it. */
  lemma PlacesRight(a: seq<seq<byte>>, b: seq<seq<byte>>, end: seq<byte>, starts: seq<nat>, at: seq<nat>, i: nat)
    requires i < |a| == |b| && starts == Starts(a, 0) && at == Starts(b, |Concat(a)|)
    ensures starts[i] == |Concat(a[..i])| && at[i + 1] == at[i] + |b[i]| && starts[i] + |a[i]| <= |Concat(a)|
    ensures Occurs(Concat(a) + Concat(b) + end, starts[i], a[i])
    ensures Occurs(Concat(a) + Concat(b) + end, at[i], b[i])
  {
    PartsOccur(a, b, end, i);
    ConcatPush(b, i);
    ConcatOccurs(a, i);
  }

  lemma SeeIn(z: seq<byte>, ps: seq<Prepared>, end: seq<byte>, i: nat)
    requires z == Concat(LocalRecords(ps)) + Concat(CentralRecords(ps)) + end
    requires |Concat(LocalRecords(ps))| < 0x1_0000_0000
    requires i < |ps| && Fits(ps[i]) && ps[i].crc == FromBits(Checksum(ps[i].data))
    ensures EntrySeen(z, ps, PlanOf(ps), i)
  {
    PlacesRight(LocalRecords(ps), CentralRecords(ps), end, Starts(LocalRecords(ps), 0), PlanOf(ps).at, i);
    SeeEntry(z, ps, PlanOf(ps), i);
  }

  /** A reader recovers every name with its data and time stamp, in order, exactly within the limits of the format. */
  lemma ReadBackIff(ps: seq<Prepared>)
    requires ChecksumsRight(ps)
    ensures ReadZip(Archive(ps)) == Some(Contents(ps)) <==> WithinLimits(ps)
  {
    if WithinLimits(ps) {
      ReadBackFrom(Archive(ps), ps, Concat(LocalRecords(ps)), Concat(CentralRecords(ps)));
    }
    if ReadZip(Archive(ps)) == Some(Contents(ps)) {
      ReadNeedsLimits(Archive(ps), ps, Concat(LocalRecords(ps)), Concat(CentralRecords(ps)));
    }
  }

  lemma ReadNeedsLimits(z: seq<byte>, ps: seq<Prepared>, locals: seq<byte>, centrals: seq<byte>)
    requires z == locals + centrals + EndRecord(|ps|, |centrals|, |locals|) && ReadZip(z) == Some(Contents(ps))
    ensures |ps| < 0x1_0000 && |locals| < 0x1_0000_0000 && |centrals| < 0x1_0000_0000 && AllFit(ps)
  {
    SeeEnd(locals + centrals, z, |ps|, |centrals|, |locals|);
    ReadZipNeeds(z, |ps| % 0x1_0000, |centrals| % 0x1_0000_0000, |locals| % 0x1_0000_0000);
    CutNumbers(|ps|, |centrals|, |locals|);
    forall i | 0 <= i < |ps| ensures Fits(ps[i]) {
      assert Contents(ps)[i] in Contents(ps);
    }
  }

  lemma ReadBackFrom(z: seq<byte>, ps: seq<Prepared>, locals: seq<byte>, centrals: seq<byte>)
    requires WithinLimits(ps) && ChecksumsRight(ps)
    requires locals == Concat(LocalRecords(ps)) && centrals == Concat(CentralRecords(ps))
    requires z == locals + centrals + EndRecord(|ps|, |centrals|, |locals|)
    ensures ReadZip(z) == Some(Contents(ps))
  {
    AllIn(z, ps, EndRecord(|ps|, |centrals|, |locals|));
    FirstCentral(ps);
    SeeWholeEnd(locals + centrals, z, |ps|, |centrals|, |locals|);
    ReadSeen(z, ps, PlanOf(ps), |centrals|);
  }

  lemma AllIn(z: seq<byte>, ps: seq<Prepared>, end: seq<byte>)
    requires z == Concat(LocalRecords(ps)) + Concat(CentralRecords(ps)) + end
    requires |Concat(LocalRecords(ps))| < 0x1_0000_0000
    requires ChecksumsRight(ps) && AllFit(ps)
    ensures AllSeen(z, ps, PlanOf(ps))
  {
    forall i {:trigger EntrySeen(z, ps, PlanOf(ps), i)} | 0 <= i < |ps|
      ensures EntrySeen(z, ps, PlanOf(ps), i)
    {
      SeeIn(z, ps, end, i);
    }
  }

  predicate Bounded(e: Extracted) {
    |e.name| < 0x1_0000 && e.time < 0x1_0000 && e.date < 0x1_0000
  }

  lemma EntryBounded(z: seq<byte>, pos: nat)
    requires ReadEntry(z, pos).Some?
    ensures Bounded(ReadEntry(z, pos).value.0)
  {
  }

  /** What is read has as many entries as asked for, with name lengths and stamps of 16 bits. */
  lemma {:induction false} ReadManyBounds(read: nat -> Option<(Extracted, nat)>, pos: nat, left: nat)
    requires forall p :: read(p).Some? ==> Bounded(read(p).value.0)
    requires ReadMany(read, pos, left).Some?
    ensures var found := ReadMany(read, pos, left).value;
            |found| == left && forall e :: e in found ==> Bounded(e)
    decreases left
  {
    if left > 0 {
      ReadManyBounds(read, read(pos).value.1, left - 1);
    }
  }

  lemma ReadZipNeeds(z: seq<byte>, count: nat, size: nat, start: nat)
    requires EndSeen(z, count, size, start) && ReadZip(z).Some?
    ensures |ReadZip(z).value| == count && |z| == start + size + 22
    ensures forall e :: e in ReadZip(z).value ==> Bounded(e)
  {
    forall p: nat | ReadEntry(z, p).Some? ensures Bounded(ReadEntry(z, p).value.0) {
      EntryBounded(z, p);
    }
    ReadManyBounds(EntryReader(z), start, count);
  }

  /** If the numbers of the end record are cut, the reader finds another number of entries or no directory. */
  lemma CutNumbers(count: nat, size: nat, start: nat)
    requires count == count % 0x1_0000 && start + size == start % 0x1_0000_0000 + size % 0x1_0000_0000
    ensures count < 0x1_0000 && size < 0x1_0000_0000 && start < 0x1_0000_0000
  {
  }

  lemma FirstCentral(ps: seq<Prepared>)
    ensures PlanOf(ps).at[0] == |Concat(LocalRecords(ps))|
  {
    assert CentralRecords(ps)[..0] == [];
  }

  /** What the reader sees in the end record. */
  ghost predicate EndSeen(z: seq<byte>, count: nat, size: nat, start: nat) {
    && 22 <= |z|
    && var end := |z| - 22;
       U32(z, end) == 0x06054b50 && U16(z, end + 4) == 0 && U16(z, end + 6) == 0
       && U16(z, end + 8) == U16(z, end + 10) && U16(z, end + 10) == count && U32(z, end + 12) == size
       && U32(z, end + 16) == start && U16(z, end + 20) == 0
  }

  lemma ReaderFinds(z: seq<byte>, ps: seq<Prepared>, plan: Plan)
    requires AllSeen(z, ps, plan)
    ensures forall k :: 0 <= k < |ps| ==> EntryReader(z)(plan.at[k]) == Some((plan.contents[k], plan.at[k + 1]))
  {
    forall k | 0 <= k < |ps| ensures EntryReader(z)(plan.at[k]) == Some((plan.contents[k], plan.at[k + 1])) {
      assert EntrySeen(z, ps, plan, k);
      EntryFollows(z, plan.at[k], CentralOf(ps[k], plan.at[k], plan.offsets[k]), ps[k].data);
    }
  }

  /** The end record leads to the central directory. */
  lemma ReadSeen(z: seq<byte>, ps: seq<Prepared>, plan: Plan, size: nat)
    requires AllSeen(z, ps, plan) && EndSeen(z, |ps|, size, plan.at[0]) && |z| == plan.at[0] + size + 22
    ensures ReadZip(z) == Some(plan.contents)
  {
    ReaderFinds(z, ps, plan);
    ReadManyFinds(EntryReader(z), plan.at, plan.contents, 0);
    ReadZipWith(z, EntryReader(z), plan.contents, |ps|, size, plan.at[0]);
  }

  lemma ReadZipWith(z: seq<byte>, read: nat -> Option<(Extracted, nat)>, contents: seq<Extracted>,
                    count: nat, size: nat, start: nat)
    requires EndSeen(z, count, size, start) && |z| == start + size + 22 && read == EntryReader(z)
    requires ReadMany(read, start, count) == Some(contents[0..])
    ensures ReadZip(z) == Some(contents)
  {
  }

  /** The counts and sizes of the end record, each cut to its field. */
  lemma SeeEnd(body: seq<byte>, z: seq<byte>, count: nat, size: nat, start: nat)
    requires z == body + EndRecord(count, size, start)
    ensures |z| == |body| + 22
    ensures EndSeen(z, count % 0x1_0000, size % 0x1_0000_0000, start % 0x1_0000_0000)
  {
    EndParts(count, size, start);
    SeeEndParts(body, EndRecord(count, size, start), count, size, start);
  }

  lemma SeeWholeEnd(body: seq<byte>, z: seq<byte>, count: nat, size: nat, start: nat)
    requires z == body + EndRecord(count, size, start)
    requires count < 0x1_0000 && size < 0x1_0000_0000 && start < 0x1_0000_0000
    ensures |z| == |body| + 22 && EndSeen(z, count, size, start)
  {
    SeeEnd(body, z, count, size, start);
  }

  lemma SeeEndParts(body: seq<byte>, h: seq<byte>, count: nat, size: nat, start: nat)
    requires |h| == 22 && h[0..4] == LE32(0x06054b50) && h[4..6] == h[6..8] == LE16(0) && h[8..10] == h[10..12]
    requires h[10..12] == LE16(count) && h[12..16] == LE32(size)
    requires h[16..20] == LE32(start) && h[20..22] == LE16(0)
    ensures EndSeen(body + h, count % 0x1_0000, size % 0x1_0000_0000, start % 0x1_0000_0000)
  {
    assert Occurs(body + h, |body|, h);
    Part32(body + h, |body|, h, 0, 0x06054b50);
    Part16(body + h, |body|, h, 4, 0);
    Part16(body + h, |body|, h, 6, 0);
    Cut16(body + h, |body|, h, 8, count);
    Cut16(body + h, |body|, h, 10, count);
    Cut32(body + h, |body|, h, 12, size);
    Cut32(body + h, |body|, h, 16, start);
    Part16(body + h, |body|, h, 20, 0);
  }
}
