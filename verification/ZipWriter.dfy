/** `createZip` (packages/core/src/utils/zip.ts): names, sizes, and the writes into a buffer of exactly that size. */
module ZipWriter {
  import opened Options
  import opened Bytes
  import opened Crc32
  import opened ZipNames
  import opened ZipFormat
  import opened ZipRoundTrip

  /** An entry as the caller gives it; `time` and `date` are its DOS time stamp. */
  datatype Entry = Entry(name: string, data: seq<byte>, time: nat, date: nat)

  /** The output buffer and the place of the next write. */
  class Writer {
    const out: array<byte>
    var offset: nat

    constructor (total: nat)
      ensures fresh(out) && out.Length == total && offset == 0
    {
      out := new byte[total](_ => 0);
      offset := 0;
    }

    /** `write16`: appends to what has been written since `base`. */
    method Write16(v: nat, ghost base: nat)
      requires base <= offset && offset + 2 <= out.Length
      modifies this`offset, out
      ensures offset == old(offset) + 2 && out[..base] == old(out[..base])
      ensures out[base..offset] == old(out[base..offset]) + LE16(v)
    {
      out[offset] := ByteAt(v, 0);
      out[offset + 1] := ByteAt(v, 1);
      assert out[offset..offset + 2] == LE16(v);
      assert out[base..offset + 2] == out[base..offset] + out[offset..offset + 2];
      offset := offset + 2;
    }

    /** `write32`. */
    method Write32(v: nat, ghost base: nat)
      requires base <= offset && offset + 4 <= out.Length
      modifies this`offset, out
      ensures offset == old(offset) + 4 && out[..base] == old(out[..base])
      ensures out[base..offset] == old(out[base..offset]) + LE32(v)
    {
      out[offset] := ByteAt(v, 0);
      out[offset + 1] := ByteAt(v, 1);
      out[offset + 2] := ByteAt(v, 2);
      out[offset + 3] := ByteAt(v, 3);
      assert out[offset..offset + 4] == LE32(v);
      assert out[base..offset + 4] == out[base..offset] + out[offset..offset + 4];
      offset := offset + 4;
    }

    /** `out.set(bytes, offset)`. */
    method WriteBytes(bytes: seq<byte>, ghost base: nat)
      requires base <= offset && offset + |bytes| <= out.Length
      modifies this`offset, out
      ensures offset == old(offset) + |bytes| && out[..base] == old(out[..base])
      ensures out[base..offset] == old(out[base..offset]) + bytes
    {
      forall k | 0 <= k < |bytes| {
        out[offset + k] := bytes[k];
      }
      offset := offset + |bytes|;
    }

    method WriteLocalHeader(e: Prepared)
      requires offset + 30 <= out.Length
      modifies this`offset, out
      ensures offset == old(offset) + 30 && out[..old(offset)] == old(out[..offset])
      ensures out[old(offset)..offset] == LocalHeader(e)
    {
      ghost var base := offset;
      Write32(0x04034b50, base);
      assert out[base..offset] == LE32(0x04034b50);
      Write16(20, base);
      Write16(0x0800, base);
      Write16(0, base);
      Write16(e.time, base);
      Write16(e.date, base);
      Write32(e.crc, base);
      Write32(|e.data|, base);
      Write32(|e.data|, base);
      Write16(|e.name|, base);
      Write16(0, base);
    }

    method WriteLocal(e: Prepared)
      requires offset + 30 + |e.name| + |e.data| <= out.Length
      modifies this`offset, out
      ensures offset == old(offset) + 30 + |e.name| + |e.data| && out[..old(offset)] == old(out[..offset])
      ensures out[old(offset)..offset] == LocalRecord(e)
    {
      ghost var base := offset;
      WriteLocalHeader(e);
      WriteBytes(e.name, base);
      WriteBytes(e.data, base);
    }

    method WriteCentralHeader(e: Prepared, localOffset: nat)
      requires offset + 46 <= out.Length
      modifies this`offset, out
      ensures offset == old(offset) + 46 && out[..old(offset)] == old(out[..offset])
      ensures out[old(offset)..offset] == CentralHeader(e, localOffset)
    {
      ghost var base := offset;
      Write32(0x02014b50, base);
      assert out[base..offset] == LE32(0x02014b50);
      Write16(20, base);
      Write16(20, base);
      Write16(0x0800, base);
      Write16(0, base);
      Write16(e.time, base);
      Write16(e.date, base);
      Write32(e.crc, base);
      Write32(|e.data|, base);
      Write32(|e.data|, base);
      Write16(|e.name|, base);
      Write16(0, base);
      Write16(0, base);
      Write16(0, base);
      Write16(0, base);
      Write32(0, base);
      Write32(localOffset, base);
    }

    method WriteCentral(e: Prepared, localOffset: nat)
      requires offset + 46 + |e.name| <= out.Length
      modifies this`offset, out
      ensures offset == old(offset) + 46 + |e.name| && out[..old(offset)] == old(out[..offset])
      ensures out[old(offset)..offset] == CentralRecord(e, localOffset)
    {
      ghost var base := offset;
      WriteCentralHeader(e, localOffset);
      WriteBytes(e.name, base);
    }

    method WriteEnd(count: nat, centralStart: nat)
      requires centralStart <= offset && offset + 22 <= out.Length
      modifies this`offset, out
      ensures offset == old(offset) + 22 && out[..old(offset)] == old(out[..offset])
      ensures out[old(offset)..offset] == EndRecord(count, old(offset) - centralStart, centralStart)
    {
      ghost var base := offset;
      var size := offset - centralStart;
      Write32(0x06054b50, base);
      assert out[base..offset] == LE32(0x06054b50);
      Write16(0, base);
      Write16(0, base);
      Write16(count, base);
      Write16(count, base);
      Write32(size, base);
      Write32(centralStart, base);
      Write16(0, base);
    }
  }
  // ---------------------------------------------------------------- createZip

  /** The entries as written: sanitized, pairwise distinct names, and the right checksums. */
  ghost predicate PreparedFrom(ps: seq<Prepared>, entries: seq<Entry>, chosen: seq<string>,
                               encode: string -> seq<byte>) {
    && |ps| == |entries| == |chosen| && WellChosen(chosen, EntryNames(entries)) && ChecksumsRight(ps)
    && forall i :: 0 <= i < |ps| ==>
         && ps[i].name == encode(chosen[i]) && ps[i].data == entries[i].data
         && ps[i].time == entries[i].time && ps[i].date == entries[i].date
  }

  function EntryNames(entries: seq<Entry>): (names: seq<string>)
    ensures |names| == |entries|
  {
    seq(|entries|, i requires 0 <= i < |entries| => entries[i].name)
  }

  method Prepare(entries: seq<Entry>, encode: string -> seq<byte>)
    returns (prepared: seq<Prepared>, ghost chosen: seq<string>)
    ensures PreparedFrom(prepared, entries, chosen, encode)
  {
    var names := ChooseNames(EntryNames(entries));
    chosen := names;
    prepared := [];
    for i := 0 to |entries|
      invariant |prepared| == i && ChecksumsRight(prepared)
      invariant forall k :: 0 <= k < i ==>
                  && prepared[k].name == encode(names[k]) && prepared[k].data == entries[k].data
                  && prepared[k].time == entries[k].time && prepared[k].date == entries[k].date
    {
      var crc := ComputeCrc32(entries[i].data);
      var e := entries[i];
      prepared := prepared + [Prepared(encode(names[i]), e.data, FromBits(crc), e.time, e.date)];
    }
  }

  /** The sizes `createZip` adds up before it writes. */
  method Sizes(prepared: seq<Prepared>) returns (size: nat, centralSize: nat)
    ensures size == |Concat(LocalRecords(prepared))|
    ensures centralSize == |Concat(CentralRecords(prepared))|
  {
    size, centralSize := 0, 0;
    for i := 0 to |prepared|
      invariant size == |Concat(LocalRecords(prepared)[..i])|
      invariant centralSize == |Concat(CentralRecords(prepared)[..i])|
    {
      RecordSizes(prepared, i);
      size := size + 30 + |prepared[i].name| + |prepared[i].data|;
      centralSize := centralSize + 46 + |prepared[i].name|;
    }
    WholeConcat(LocalRecords(prepared));
    WholeConcat(CentralRecords(prepared));
  }

  lemma RecordSizes(ps: seq<Prepared>, i: nat)
    requires i < |ps|
    ensures |Concat(LocalRecords(ps)[..i + 1])| == |Concat(LocalRecords(ps)[..i])| + 30 + |ps[i].name| + |ps[i].data|
    ensures |Concat(CentralRecords(ps)[..i + 1])| == |Concat(CentralRecords(ps)[..i])| + 46 + |ps[i].name|
  {
    ConcatPush(LocalRecords(ps), i);
    ConcatPush(CentralRecords(ps), i);
    LocalHeaderParts(ps[i]);
    CentralHeaderParts(ps[i], |Concat(LocalRecords(ps)[..i])|);
  }

  lemma WholeConcat(parts: seq<seq<byte>>)
    ensures Concat(parts[..|parts|]) == Concat(parts) && Concat(parts[..0]) == []
  {
    assert parts[..|parts|] == parts;
  }

  /** The records still to be written fit into the rest of the buffer. */
  lemma {:induction false} PrefixFits(parts: seq<seq<byte>>, i: nat)
    requires i <= |parts|
    ensures |Concat(parts[..i])| <= |Concat(parts)|
    decreases |parts| - i
  {
    if i < |parts| {
      ConcatPush(parts, i);
      PrefixFits(parts, i + 1);
    } else {
      assert parts[..i] == parts;
    }
  }

  /** What is in the buffer after a write: what was there, and what was written. */
  lemma Extended(after: seq<byte>, before: seq<byte>, part: seq<byte>)
    requires |before| <= |after| && after[..|before|] == before && after[|before|..] == part
    ensures after == before + part
  {
  }

  lemma AppendNext(before: seq<byte>, parts: seq<seq<byte>>, i: nat)
    requires i < |parts|
    ensures before + Concat(parts[..i]) + parts[i] == before + Concat(parts[..i + 1])
    ensures |Concat(parts[..i])| + |parts[i]| <= |Concat(parts)|
  {
    ConcatPush(parts, i);
    PrefixFits(parts, i + 1);
  }

  ghost predicate LocalAt(parts: seq<seq<byte>>, ps: seq<Prepared>, i: nat)
    requires i < |parts| == |ps|
  {
    parts[i] == LocalRecord(ps[i])
  }

  ghost predicate AreLocal(parts: seq<seq<byte>>, ps: seq<Prepared>) {
    && |parts| == |ps|
    && forall i {:trigger LocalAt(parts, ps, i)} :: 0 <= i < |ps| ==> LocalAt(parts, ps, i)
  }

  ghost predicate CentralAt(parts: seq<seq<byte>>, ps: seq<Prepared>, offsets: seq<nat>, i: nat)
    requires i < |parts| == |ps| == |offsets|
  {
    parts[i] == CentralRecord(ps[i], offsets[i])
  }

  ghost predicate AreCentral(parts: seq<seq<byte>>, ps: seq<Prepared>, offsets: seq<nat>) {
    && |parts| == |ps| == |offsets|
    && forall i {:trigger CentralAt(parts, ps, offsets, i)} :: 0 <= i < |ps| ==> CentralAt(parts, ps, offsets, i)
  }

  method WriteLocals(w: Writer, prepared: seq<Prepared>, ghost parts: seq<seq<byte>>) returns (centralOffsets: seq<nat>)
    requires w.offset == 0 && AreLocal(parts, prepared) && |Concat(parts)| <= w.out.Length
    modifies w`offset, w.out
    ensures w.offset <= w.out.Length && w.out[..w.offset] == Concat(parts)
    ensures |centralOffsets| == |prepared|
    ensures forall k :: 0 <= k < |prepared| ==> centralOffsets[k] == |Concat(parts[..k])|
  {
    centralOffsets := [];
    WholeConcat(parts);
    for i := 0 to |prepared|
      invariant w.offset <= w.out.Length && w.out[..w.offset] == [] + Concat(parts[..i])
      invariant |centralOffsets| == i
      invariant forall k :: 0 <= k < i ==> centralOffsets[k] == |Concat(parts[..k])|
    {
      AppendNext([], parts, i);
      centralOffsets := centralOffsets + [w.offset];
      WriteNextLocal(w, prepared, i, parts);
    }
  }

  method WriteNextLocal(w: Writer, prepared: seq<Prepared>, i: nat, ghost parts: seq<seq<byte>>)
    requires i < |prepared| && AreLocal(parts, prepared) && w.offset + |parts[i]| <= w.out.Length
    modifies w`offset, w.out
    ensures w.offset == old(w.offset) + |parts[i]| && w.out[..w.offset] == old(w.out[..w.offset]) + parts[i]
  {
    assert LocalAt(parts, prepared, i);
    LocalHeaderParts(prepared[i]);
    ghost var before := w.out[..w.offset];
    w.WriteLocal(prepared[i]);
    Extended(w.out[..w.offset], before, parts[i]);
  }

  method WriteCentrals(w: Writer, prepared: seq<Prepared>, centralOffsets: seq<nat>, ghost parts: seq<seq<byte>>)
    requires AreCentral(parts, prepared, centralOffsets) && w.offset + |Concat(parts)| <= w.out.Length
    modifies w`offset, w.out
    ensures w.offset <= w.out.Length && w.out[..w.offset] == old(w.out[..w.offset]) + Concat(parts)
  {
    ghost var before := w.out[..w.offset];
    WholeConcat(parts);
    for i := 0 to |prepared|
      invariant w.offset <= w.out.Length && w.out[..w.offset] == before + Concat(parts[..i])
    {
      AppendNext(before, parts, i);
      WriteNextCentral(w, prepared, centralOffsets, i, parts);
    }
  }

  method WriteNextCentral(w: Writer, prepared: seq<Prepared>, centralOffsets: seq<nat>, i: nat,
                          ghost parts: seq<seq<byte>>)
    requires i < |prepared| && AreCentral(parts, prepared, centralOffsets) && w.offset + |parts[i]| <= w.out.Length
    modifies w`offset, w.out
    ensures w.offset == old(w.offset) + |parts[i]| && w.out[..w.offset] == old(w.out[..w.offset]) + parts[i]
  {
    assert CentralAt(parts, prepared, centralOffsets, i);
    CentralHeaderParts(prepared[i], centralOffsets[i]);
    ghost var before := w.out[..w.offset];
    w.WriteCentral(prepared[i], centralOffsets[i]);
    Extended(w.out[..w.offset], before, parts[i]);
  }

  lemma LocalsAre(ps: seq<Prepared>)
    ensures AreLocal(LocalRecords(ps), ps)
  {
    forall i {:trigger LocalAt(LocalRecords(ps), ps, i)} | 0 <= i < |ps| ensures LocalAt(LocalRecords(ps), ps, i) {
    }
  }

  /** The central records that point to where these local records begin. */
  ghost predicate PointAt(centrals: seq<seq<byte>>, ps: seq<Prepared>, locals: seq<seq<byte>>) {
    && |locals| == |ps|
    && AreCentral(centrals, ps, seq(|ps|, i requires 0 <= i < |ps| => |Concat(locals[..i])|))
  }

  lemma CentralsAre(ps: seq<Prepared>)
    ensures PointAt(CentralRecords(ps), ps, LocalRecords(ps))
  {
    var offsets := seq(|ps|, i requires 0 <= i < |ps| => |Concat(LocalRecords(ps)[..i])|);
    forall i {:trigger CentralAt(CentralRecords(ps), ps, offsets, i)} | 0 <= i < |ps|
      ensures CentralAt(CentralRecords(ps), ps, offsets, i)
    {
    }
  }

  lemma OffsetsAgree(centrals: seq<seq<byte>>, ps: seq<Prepared>, locals: seq<seq<byte>>, offsets: seq<nat>)
    requires PointAt(centrals, ps, locals) && |offsets| == |ps|
    requires forall k :: 0 <= k < |ps| ==> offsets[k] == |Concat(locals[..k])|
    ensures AreCentral(centrals, ps, offsets)
  {
    assert offsets == seq(|ps|, i requires 0 <= i < |ps| => |Concat(locals[..i])|);
  }

  /** `createZip`: the buffer is filled exactly, with the archive of the prepared entries. */
  method CreateZip(entries: seq<Entry>, encode: string -> seq<byte>)
    returns (out: array<byte>, offset: nat, ghost ps: seq<Prepared>, ghost chosen: seq<string>)
    ensures PreparedFrom(ps, entries, chosen, encode)
    ensures fresh(out) && offset == out.Length && out[..] == Archive(ps)
  {
    var prepared, names := Prepare(entries, encode);
    ps, chosen := prepared, names;
    var size, centralSize := Sizes(prepared);
    var w := new Writer(size + centralSize + 22);
    out := w.out;
    LocalsAre(prepared);
    CentralsAre(prepared);
    offset := WriteAll(w, prepared, LocalRecords(prepared), CentralRecords(prepared));
    assert out[..] == out[..offset];
  }

  /** The two loops and the end record. */
  method WriteAll(w: Writer, prepared: seq<Prepared>, ghost locals: seq<seq<byte>>, ghost centrals: seq<seq<byte>>)
    returns (offset: nat)
    requires AreLocal(locals, prepared) && PointAt(centrals, prepared, locals)
    requires w.offset == 0 && w.out.Length == |Concat(locals)| + |Concat(centrals)| + 22
    modifies w`offset, w.out
    ensures offset == w.out.Length
    ensures w.out[..offset] ==
            Concat(locals) + Concat(centrals) + EndRecord(|prepared|, |Concat(centrals)|, |Concat(locals)|)
  {
    var centralOffsets := WriteLocals(w, prepared, locals);
    var centralStart := w.offset;
    OffsetsAgree(centrals, prepared, locals, centralOffsets);
    WriteCentrals(w, prepared, centralOffsets, centrals);
    ghost var before := w.out[..w.offset];
    w.WriteEnd(|prepared|, centralStart);
    Extended(w.out[..w.offset], before, EndRecord(|prepared|, |Concat(centrals)|, |Concat(locals)|));
    offset := w.offset;
  }

  /**
   Within the limits of the format, a reader recovers the data and the time stamp of every entry, in order, under
   distinct safe names.
   */
  lemma ReadCreated(entries: seq<Entry>, encode: string -> seq<byte>, ps: seq<Prepared>, chosen: seq<string>)
    requires PreparedFrom(ps, entries, chosen, encode) && WithinLimits(ps)
    requires forall s, t :: encode(s) == encode(t) ==> s == t
    ensures ReadZip(Archive(ps)).Some?
    ensures var read := ReadZip(Archive(ps)).value;
            && |read| == |entries|
            && (forall i :: 0 <= i < |entries| ==>
                  read[i] == Extracted(encode(chosen[i]), entries[i].data, entries[i].time, entries[i].date)
                  && IsSafe(chosen[i]))
            && forall i, j :: 0 <= i < j < |entries| ==> read[i].name != read[j].name
  {
    ReadBackIff(ps);
    AllDistinct(chosen, EntryNames(entries));
    assert ReadZip(Archive(ps)) == Some(Contents(ps));
    forall i, j | 0 <= i < j < |entries| ensures Contents(ps)[i].name != Contents(ps)[j].name {
      assert encode(chosen[i]) != encode(chosen[j]);
    }
  }
}
