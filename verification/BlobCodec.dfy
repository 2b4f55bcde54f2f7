/** The on-disk form of a relay record (relay/internal/blob/blob.go). */
module BlobCodec {
  import opened Options
  import opened Bytes

  type Bytes32 = s: seq<byte> | |s| == 32 witness ZeroBytes(32)
  type Bytes64 = s: seq<byte> | |s| == 64 witness ZeroBytes(64)
  type Int64 = x: int | -0x8000_0000_0000_0000 <= x < 0x8000_0000_0000_0000

  function ZeroBytes(n: nat): (s: seq<byte>)
    ensures |s| == n
  {
    seq(n, _ => 0)
  }

  const HEADER_SIZE: nat := 148

  datatype Record = Record(id: Bytes32, identity: Bytes32, payload: seq<byte>, sig: Bytes64, expiresAt: Int64) {
    /** The size of the record on disk. */
    function Size(): nat {
      HEADER_SIZE + |payload|
    }

    predicate Expired(now: int) {
      expiresAt <= now
    }

    /** Every caller bounds the payload, so its length fits the 32-bit length field. */
    ghost predicate Storable() {
      |payload| < 0x1_0000_0000
    }
  }

  datatype Meta = Meta(id: Bytes32, identity: Bytes32, sig: Bytes64, expiresAt: Int64, payloadLen: nat)

  datatype ParseError = Short | BadMagic | BadVersion | OverLimit | Truncated

  /** The two's complement bit pattern of an `int64`, and back. */
  function Bits64(x: Int64): nat {
    if x < 0 then x + 0x1_0000_0000_0000_0000 else x
  }

  function Signed64(u: nat): Int64
    requires u < 0x1_0000_0000_0000_0000
  {
    if u >= 0x8000_0000_0000_0000 then u - 0x1_0000_0000_0000_0000 else u
  }

  /** "TBLB". */
  function Magic(): seq<byte> {
    [0x54, 0x42, 0x4c, 0x42]
  }

  function Header(r: Record): seq<byte> {
    Magic() + [1, 0, 0, 0] + LE64(Bits64(r.expiresAt)) + LE32(|r.payload|) + r.identity + r.id + r.sig
  }

  function Encoded(r: Record): seq<byte> {
    Header(r) + r.payload
  }

  function MetaOf(r: Record): Meta {
    Meta(r.id, r.identity, r.sig, r.expiresAt, |r.payload|)
  }

  // ---------------------------------------------------------------- writing

  method Copy(hdr: array<byte>, at: nat, part: seq<byte>)
    requires at + |part| <= hdr.Length
    modifies hdr
    ensures hdr[at..at + |part|] == part
    ensures hdr[..at] == old(hdr[..at]) && hdr[at + |part|..] == old(hdr[at + |part|..])
  {
    forall k | 0 <= k < |part| {
      hdr[at + k] := part[k];
    }
  }

  lemma JoinParts(h: seq<byte>, a: nat, b: nat, x: seq<byte>, y: seq<byte>)
    requires a <= b <= |h| && h[..a] == x && h[a..b] == y
    ensures h[..b] == x + y
  {
    assert h[..b] == h[..a] + h[a..b];
  }

  /** `Marshal`: the fields are copied to their places in a zeroed header, then the payload follows. */
  method Marshal(r: Record) returns (bytes: seq<byte>)
    ensures bytes == Encoded(r)
  {
    var hdr := new byte[HEADER_SIZE](_ => 0);
    Copy(hdr, 0, Magic());
    assert hdr[4..][1] == 0 && hdr[4..][2] == 0 && hdr[4..][3] == 0;
    hdr[4] := 1;
    assert hdr[4..8] == [1, 0, 0, 0];
    JoinParts(hdr[..], 4, 8, Magic(), [1, 0, 0, 0]);
    Copy(hdr, 8, LE64(Bits64(r.expiresAt)));
    JoinParts(hdr[..], 8, 16, Magic() + [1, 0, 0, 0], LE64(Bits64(r.expiresAt)));
    CopyRest(hdr, r);
    bytes := hdr[..] + r.payload;
  }

  method CopyRest(hdr: array<byte>, r: Record)
    requires hdr.Length == HEADER_SIZE
    modifies hdr
    ensures hdr[..] == old(hdr[..16]) + LE32(|r.payload|) + r.identity + r.id + r.sig
  {
    ghost var start := hdr[..16];
    Copy(hdr, 16, LE32(|r.payload|));
    JoinParts(hdr[..], 16, 20, start, LE32(|r.payload|));
    ghost var upTo20 := start + LE32(|r.payload|);
    Copy(hdr, 20, r.identity);
    JoinParts(hdr[..], 20, 52, upTo20, r.identity);
    Copy(hdr, 52, r.id);
    JoinParts(hdr[..], 52, 84, upTo20 + r.identity, r.id);
    Copy(hdr, 84, r.sig);
    JoinParts(hdr[..], 84, 148, upTo20 + r.identity + r.id, r.sig);
    assert hdr[..148] == hdr[..];
  }

  // ---------------------------------------------------------------- reading

  function UnmarshalHeader(z: seq<byte>): Result<Meta, ParseError> {
    if |z| < HEADER_SIZE then Err(Short)
    else if z[0..4] != Magic() then Err(BadMagic)
    else if z[4] != 1 then Err(BadVersion)
    else
      Ok(Meta(z[52..84], z[20..52], z[84..148], Signed64(U64(z, 8)), U32(z, 16)))
  }

  /** `Unmarshal`: a payload length over the limit is refused before the payload is read. */
  function Unmarshal(z: seq<byte>, maxPayload: nat): Result<Record, ParseError> {
    match UnmarshalHeader(z)
    case Err(e) => Err(e)
    case Ok(m) =>
      if m.payloadLen > maxPayload then Err(OverLimit)
      else if |z| < HEADER_SIZE + m.payloadLen then Err(Truncated)
      else Ok(Record(m.id, m.identity, z[HEADER_SIZE..HEADER_SIZE + m.payloadLen], m.sig, m.expiresAt))
  }

  // ---------------------------------------------------------------- round trips

  lemma HeaderParts(r: Record)
    ensures var h := Header(r);
            && |h| == HEADER_SIZE && h[0..4] == Magic() && h[4] == 1
            && h[8..16] == LE64(Bits64(r.expiresAt)) && h[16..20] == LE32(|r.payload|)
            && h[20..52] == r.identity && h[52..84] == r.id && h[84..148] == r.sig
  {
  }

  /** The header of a stored record parses back to its fields, whatever follows it. */
  lemma HeaderRoundTrip(r: Record, more: seq<byte>)
    requires r.Storable()
    ensures UnmarshalHeader(Header(r) + more) == Ok(MetaOf(r))
  {
    HeaderParts(r);
    HeaderPartsParse(Header(r), r, more);
  }

  lemma HeaderPartsParse(h: seq<byte>, r: Record, more: seq<byte>)
    requires r.Storable() && |h| == HEADER_SIZE && h[0..4] == Magic() && h[4] == 1
    requires h[8..16] == LE64(Bits64(r.expiresAt)) && h[16..20] == LE32(|r.payload|)
    requires h[20..52] == r.identity && h[52..84] == r.id && h[84..148] == r.sig
    ensures UnmarshalHeader(h + more) == Ok(MetaOf(r))
  {
    SlicesParse(h + more, r);
  }

  lemma SlicesParse(z: seq<byte>, r: Record)
    requires r.Storable() && |z| >= HEADER_SIZE && z[0..4] == Magic() && z[4] == 1
    requires z[8..16] == LE64(Bits64(r.expiresAt)) && z[16..20] == LE32(|r.payload|)
    requires z[20..52] == r.identity && z[52..84] == r.id && z[84..148] == r.sig
    ensures UnmarshalHeader(z) == Ok(MetaOf(r))
  {
    ExpiryBack(z, r.expiresAt);
    LengthBack(z, |r.payload|);
  }

  lemma LengthBack(z: seq<byte>, n: nat)
    requires |z| >= 20 && z[16..20] == LE32(n) && n < 0x1_0000_0000
    ensures U32(z, 16) == n
  {
    ReadU32(z, 16, n);
  }

  lemma ExpiryBack(z: seq<byte>, expiresAt: Int64)
    requires |z| >= 16 && z[8..16] == LE64(Bits64(expiresAt))
    ensures U64(z, 8) < 0x1_0000_0000_0000_0000 && Signed64(U64(z, 8)) == expiresAt
  {
    var bits := Bits64(expiresAt);
    assert |LE64(bits)| == 8;
    ReadU64(z, 8, bits);
  }

  /** A stored record reads back exactly when its payload is within the limit. */
  lemma RecordRoundTrip(r: Record, maxPayload: nat)
    requires r.Storable()
    ensures Unmarshal(Encoded(r), maxPayload) == if |r.payload| <= maxPayload then Ok(r) else Err(OverLimit)
  {
    HeaderRoundTrip(r, r.payload);
    HeaderParts(r);
    TailOf(Header(r), r.payload);
  }

  lemma TailOf(h: seq<byte>, payload: seq<byte>)
    ensures (h + payload)[|h|..|h| + |payload|] == payload
  {
  }

  /** Two records with the same bytes on disk are the same record. */
  lemma EncodedInjective(r: Record, s: Record)
    requires r.Storable() && Encoded(r) == Encoded(s)
    ensures r == s
  {
    var limit := |r.payload| + |s.payload|;
    RecordRoundTrip(r, limit);
    RecordRoundTrip(s, limit);
  }

  lemma Bytes32Back(z: seq<byte>, pos: nat)
    requires pos + 4 <= |z|
    ensures LE32(U32(z, pos)) == z[pos..pos + 4]
  {
    var a, b, c, d := z[pos], z[pos + 1], z[pos + 2], z[pos + 3];
    var v := U32(z, pos);
    var v1 := b as nat + 256 * c as nat + 65536 * d as nat;
    var v2 := c as nat + 256 * d as nat;
    assert v / 256 == v1 && v % 256 == a as nat;
    assert v1 / 256 == v2 && v1 % 256 == b as nat;
    assert v2 / 256 == d as nat && v2 % 256 == c as nat;
    assert ByteAt(v, 0) == a;
    assert ByteAt(v, 1) == ByteAt(v1, 0) == b;
    assert ByteAt(v, 2) == ByteAt(v1, 1) == ByteAt(v2, 0) == c;
    assert ByteAt(v, 3) == ByteAt(v1, 2) == ByteAt(v2, 1) == ByteAt(d as nat, 0) == d;
    assert z[pos..pos + 4] == [a, b, c, d];
  }

  /** The lowest bytes do not see what is added above them. */
  lemma {:induction false} ByteAtLow(low: nat, high: nat, k: nat, weight: nat)
    requires weight == Weight(k + 1)
    ensures ByteAt(low + weight * high, k) == ByteAt(low, k)
    decreases k
  {
    if k == 0 {
      assert (low + 256 * high) % 256 == low % 256;
    } else {
      var w := Weight(k);
      assert weight == 256 * w;
      assert weight * high == 256 * (w * high);
      assert (low + weight * high) / 256 == low / 256 + w * high;
      ByteAtLow(low / 256, high, k - 1, w);
    }
  }

  function Weight(n: nat): nat {
    if n == 0 then 1 else 256 * Weight(n - 1)
  }

  lemma Low32(low: nat, high: nat)
    requires low < 0x1_0000_0000
    ensures LE64(low + 0x1_0000_0000 * high) == LE32(low) + LE32(high)
  {
    var v := low + 0x1_0000_0000 * high;
    assert v / 0x1_0000_0000 == high;
    ByteAtLow(low, 0x100_0000 * high, 0, 0x100);
    ByteAtLow(low, 0x1_0000 * high, 1, 0x1_0000);
    ByteAtLow(low, 0x100 * high, 2, 0x100_0000);
    ByteAtLow(low, high, 3, 0x1_0000_0000);
  }

  lemma Bytes64Back(z: seq<byte>, pos: nat)
    requires pos + 8 <= |z|
    ensures LE64(U64(z, pos)) == z[pos..pos + 8]
  {
    Low32(U32(z, pos), U32(z, pos + 4));
    Bytes32Back(z, pos);
    Bytes32Back(z, pos + 4);
    assert z[pos..pos + 8] == z[pos..pos + 4] + z[pos + 4..pos + 8];
  }

  /** What reads as a record is that record's own encoding, but for the flag bytes and what follows the payload. */
  lemma ReadIsEncoded(z: seq<byte>, maxPayload: nat, r: Record)
    requires Unmarshal(z, maxPayload) == Ok(r)
    ensures r.Storable() && r.Size() <= |z|
    ensures Encoded(r) == z[..r.Size()] <==> z[5..8] == [0, 0, 0]
  {
    var h := Header(r);
    HeaderParts(r);
    Bytes64Back(z, 8);
    Bytes32Back(z, 16);
    assert Bits64(Signed64(U64(z, 8))) == U64(z, 8);
    FlagBytes(r);
    assert Encoded(r)[..HEADER_SIZE] == h && z[..r.Size()][..HEADER_SIZE] == z[..HEADER_SIZE];
    assert Encoded(r)[HEADER_SIZE..] == r.payload == z[..r.Size()][HEADER_SIZE..];
  }

  lemma FlagBytes(r: Record)
    ensures |Header(r)| == HEADER_SIZE && Header(r)[5..8] == [0, 0, 0]
  {
  }
}
