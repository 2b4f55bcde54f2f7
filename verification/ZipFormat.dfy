/**
 The archive format `createZip` writes (packages/core/src/utils/zip.ts), and a reader that goes from the
 end record over the central directory to the local headers
 (sections 4.3.16, 4.3.12 and 4.3.7 of the PKWARE APPNOTE).
 */
module ZipFormat {
  import opened Options
  import opened Bytes
  import opened Crc32

  /** One entry ready to be written. */
  datatype Prepared = Prepared(name: seq<byte>, data: seq<byte>, crc: nat, time: nat, date: nat)

  // ---------------------------------------------------------------- what is written

  function LocalHeader(e: Prepared): seq<byte> {
    LE32(0x04034b50) + LE16(20) + LE16(0x0800) + LE16(0) + LE16(e.time) + LE16(e.date) + LE32(e.crc)
    + LE32(|e.data|) + LE32(|e.data|) + LE16(|e.name|) + LE16(0)
  }

  function LocalRecord(e: Prepared): seq<byte> {
    LocalHeader(e) + e.name + e.data
  }

  function CentralHeader(e: Prepared, offset: nat): seq<byte> {
    LE32(0x02014b50) + LE16(20) + LE16(20) + LE16(0x0800) + LE16(0) + LE16(e.time) + LE16(e.date) + LE32(e.crc)
    + LE32(|e.data|) + LE32(|e.data|) + LE16(|e.name|) + LE16(0) + LE16(0) + LE16(0) + LE16(0) + LE32(0)
    + LE32(offset)
  }

  function CentralRecord(e: Prepared, offset: nat): seq<byte> {
    CentralHeader(e, offset) + e.name
  }

  function EndRecord(count: nat, size: nat, start: nat): seq<byte> {
    LE32(0x06054b50) + LE16(0) + LE16(0) + LE16(count) + LE16(count) + LE32(size) + LE32(start) + LE16(0)
  }

  function Concat(parts: seq<seq<byte>>): seq<byte> {
    if parts == [] then [] else Concat(parts[..|parts| - 1]) + parts[|parts| - 1]
  }

  function LocalRecords(ps: seq<Prepared>): (records: seq<seq<byte>>)
    ensures |records| == |ps|
  {
    seq(|ps|, i requires 0 <= i < |ps| => LocalRecord(ps[i]))
  }

  /** The central records; each names the place where the local record of its entry begins. */
  function CentralRecords(ps: seq<Prepared>): (records: seq<seq<byte>>)
    ensures |records| == |ps|
  {
    seq(|ps|, i requires 0 <= i < |ps| => CentralRecord(ps[i], |Concat(LocalRecords(ps)[..i])|))
  }

  function Archive(ps: seq<Prepared>): seq<byte> {
    var locals, centrals := Concat(LocalRecords(ps)), Concat(CentralRecords(ps));
    locals + centrals + EndRecord(|ps|, |centrals|, |locals|)
  }

  // ---------------------------------------------------------------- what a reader finds

  datatype Extracted = Extracted(name: seq<byte>, data: seq<byte>, time: nat, date: nat)

  /** What a central record says of its entry, and where the next record begins. */
  datatype Central = Central(name: seq<byte>, version: nat, time: nat, date: nat, crc: nat, size: nat, offset: nat,
      next: nat)

  /** A stored file with an UTF-8 name and no attributes, on the only disk, that version 2.0 can read. */
  predicate IsPlainFile(z: seq<byte>, pos: nat)
    requires pos + 46 <= |z|
  {
    && U16(z, pos + 4) <= 20 && U16(z, pos + 6) <= 20 && U16(z, pos + 8) == 0x0800 && U16(z, pos + 10) == 0
    && U32(z, pos + 20) == U32(z, pos + 24)
    && U16(z, pos + 34) == 0 && U16(z, pos + 36) == 0 && U32(z, pos + 38) == 0
  }

  function ReadCentral(z: seq<byte>, pos: nat): Option<Central> {
    if pos + 46 > |z| || U32(z, pos) != 0x02014b50 || !IsPlainFile(z, pos) then None
    else
      var nameEnd := pos + 46 + U16(z, pos + 28);
      if nameEnd > |z| then None
      else
        Some(Central(z[pos + 46..nameEnd], U16(z, pos + 6), U16(z, pos + 12), U16(z, pos + 14), U32(z, pos + 16),
                     U32(z, pos + 20), U32(z, pos + 42), nameEnd + U16(z, pos + 30) + U16(z, pos + 32)))
  }

  /** The local header at `at` says the same. */
  predicate Repeats(z: seq<byte>, at: nat, c: Central)
    requires at + 30 <= |z|
  {
    && U16(z, at + 4) == c.version && U16(z, at + 6) == 0x0800 && U16(z, at + 8) == 0
    && U16(z, at + 10) == c.time && U16(z, at + 12) == c.date && U32(z, at + 14) == c.crc
    && U32(z, at + 18) == U32(z, at + 22) == c.size && U16(z, at + 26) == |c.name|
  }

  function Checked(data: seq<byte>, crc: nat): Option<seq<byte>> {
    if FromBits(Checksum(data)) == crc then Some(data) else None
  }

  /** Reads the local record, checks its header against the central record and the data against its CRC. */
  function ReadLocal(z: seq<byte>, c: Central): Option<seq<byte>> {
    var at := c.offset;
    if at + 30 > |z| || U32(z, at) != 0x04034b50 || !Repeats(z, at, c) then None
    else
      var dataAt := at + 30 + |c.name| + U16(z, at + 28);
      if dataAt + c.size > |z| || z[at + 30..at + 30 + |c.name|] != c.name then None
      else Checked(z[dataAt..dataAt + c.size], c.crc)
  }

  /** Reads the central record at `pos` and the entry it points to; also gives where the next record begins. */
  function ReadEntry(z: seq<byte>, pos: nat): Option<(Extracted, nat)> {
    match ReadCentral(z, pos)
    case None => None
    case Some(c) =>
      match ReadLocal(z, c)
      case None => None
      case Some(data) => Some((Extracted(c.name, data, c.time, c.date), c.next))
  }

  function EntryReader(z: seq<byte>): nat -> Option<(Extracted, nat)> {
    pos => ReadEntry(z, pos)
  }

  /** Reads `left` records one after the other; each tells where the next begins. */
  function ReadMany<T>(read: nat -> Option<(T, nat)>, pos: nat, left: nat): Option<seq<T>>
    decreases left
  {
    if left == 0 then Some([])
    else
      match read(pos)
      case None => None
      case Some((entry, next)) =>
        match ReadMany(read, next, left - 1)
        case None => None
        case Some(rest) => Some([entry] + rest)
  }

  /** Reads an archive whose end record has no comment. */
  function ReadZip(z: seq<byte>): Option<seq<Extracted>> {
    if |z| < 22 then None
    else
      var end := |z| - 22;
      var start, size := U32(z, end + 16), U32(z, end + 12);
      if U32(z, end) != 0x06054b50 || U16(z, end + 4) != 0 || U16(z, end + 6) != 0 then None
      else if U16(z, end + 8) != U16(z, end + 10) || U16(z, end + 20) != 0 || start + size != end then None
      else ReadMany(EntryReader(z), start, U16(z, end + 10))
  }
}
