/** Bytes and little-endian integers, as `DataView` and `encoding/binary` read and write them. */
module Bytes {

  newtype byte = x: int | 0 <= x < 256

  /** Byte `k` of a number, counted from the lowest. */
  function ByteAt(v: nat, k: nat): byte
    decreases k
  {
    if k == 0 then (v % 256) as byte else ByteAt(v / 256, k - 1)
  }

  /** `setUint16(_, v, true)`: the value is taken modulo 2^16. */
  function LE16(v: nat): seq<byte> {
    [ByteAt(v, 0), ByteAt(v, 1)]
  }

  /** `setUint32(_, v, true)`: the value is taken modulo 2^32. */
  function LE32(v: nat): seq<byte> {
    [ByteAt(v, 0), ByteAt(v, 1), ByteAt(v, 2), ByteAt(v, 3)]
  }

  /** `PutUint64`: the value is taken modulo 2^64. */
  function LE64(v: nat): seq<byte> {
    LE32(v) + LE32(v / 0x1_0000_0000)
  }

  function U16(z: seq<byte>, pos: nat): nat
    requires pos + 2 <= |z|
  {
    z[pos] as nat + 256 * z[pos + 1] as nat
  }

  function U32(z: seq<byte>, pos: nat): nat
    requires pos + 4 <= |z|
  {
    z[pos] as nat + 256 * z[pos + 1] as nat + 65536 * z[pos + 2] as nat + 16777216 * z[pos + 3] as nat
  }

  function U64(z: seq<byte>, pos: nat): nat
    requires pos + 8 <= |z|
  {
    U32(z, pos) + 0x1_0000_0000 * U32(z, pos + 4)
  }

  /** The lowest byte comes first. */
  lemma LowestFirst(v: nat)
    ensures LE16(v) == [(v % 256) as byte, (v / 0x100 % 256) as byte]
    ensures LE32(v) == LE16(v) + LE16(v / 0x1_0000)
    ensures LE64(v) == LE32(v) + LE32(v / 0x1_0000_0000)
  {
    assert v / 256 / 256 == v / 0x1_0000;
    assert ByteAt(v, 1) == ByteAt(v / 256, 0);
    assert ByteAt(v, 2) == ByteAt(v / 256, 1) == ByteAt(v / 0x1_0000, 0);
    assert ByteAt(v, 3) == ByteAt(v / 256, 2) == ByteAt(v / 0x1_0000, 1);
  }

  /** `part` occurs in `z` at `pos`. */
  ghost predicate Occurs(z: seq<byte>, pos: nat, part: seq<byte>) {
    pos + |part| <= |z| && z[pos..pos + |part|] == part
  }

  lemma Slice(z: seq<byte>, pos: nat, part: seq<byte>, a: nat, b: nat)
    requires Occurs(z, pos, part) && a <= b <= |part|
    ensures Occurs(z, pos + a, part[a..b])
  {
    forall k | 0 <= k < b - a ensures z[pos + a..pos + b][k] == part[a..b][k] {
      assert part[a + k] == z[pos..pos + |part|][a + k];
    }
    assert z[pos + a..pos + b] == part[a..b];
  }

  lemma Halves(z: seq<byte>, pos: nat, x: seq<byte>, y: seq<byte>)
    requires Occurs(z, pos, x + y)
    ensures Occurs(z, pos, x) && Occurs(z, pos + |x|, y)
  {
    Slice(z, pos, x + y, 0, |x|);
    Slice(z, pos, x + y, |x|, |x + y|);
    assert (x + y)[0..|x|] == x && (x + y)[|x|..|x + y|] == y;
  }

  lemma Longer(z: seq<byte>, more: seq<byte>, pos: nat, part: seq<byte>)
    requires Occurs(z, pos, part)
    ensures Occurs(z + more, pos, part)
  {
    assert (z + more)[pos..pos + |part|] == z[pos..pos + |part|];
  }

  lemma Shifted(before: seq<byte>, z: seq<byte>, pos: nat, part: seq<byte>)
    requires Occurs(z, pos, part)
    ensures Occurs(before + z, |before| + pos, part)
  {
    assert (before + z)[|before| + pos..|before| + pos + |part|] == z[pos..pos + |part|];
  }

  /** A 16-bit value reads back unless it was cut. */
  lemma ReadU16(z: seq<byte>, pos: nat, v: nat)
    requires Occurs(z, pos, LE16(v))
    ensures pos + 2 <= |z| && U16(z, pos) == v % 0x1_0000
  {
    var s := z[pos..pos + 2];
    assert s[0] == z[pos] && s[1] == z[pos + 1];
    Base256Twice(v);
  }

  lemma ReadU32(z: seq<byte>, pos: nat, v: nat)
    requires Occurs(z, pos, LE32(v))
    ensures pos + 4 <= |z| && U32(z, pos) == v % 0x1_0000_0000
  {
    var s := z[pos..pos + 4];
    assert s[0] == z[pos] && s[1] == z[pos + 1] && s[2] == z[pos + 2] && s[3] == z[pos + 3];
    Base256(v);
  }

  lemma ReadU64(z: seq<byte>, pos: nat, v: nat)
    requires Occurs(z, pos, LE64(v)) && v < 0x1_0000_0000_0000_0000
    ensures pos + 8 <= |z| && U64(z, pos) == v
  {
    Halves(z, pos, LE32(v), LE32(v / 0x1_0000_0000));
    ReadU32(z, pos, v);
    ReadU32(z, pos + 4, v / 0x1_0000_0000);
    HighWord(v);
  }

  lemma HighWord(v: nat)
    requires v < 0x1_0000_0000_0000_0000
    ensures v / 0x1_0000_0000 < 0x1_0000_0000
    ensures v == v % 0x1_0000_0000 + 0x1_0000_0000 * (v / 0x1_0000_0000 % 0x1_0000_0000)
  {
  }

  lemma Base256Twice(v: nat)
    ensures v % 0x1_0000 == ByteAt(v, 0) as nat + 256 * ByteAt(v, 1) as nat
  {
    TwoDigits(v, v / 256);
    SecondByte(v);
  }

  lemma SecondByte(v: nat)
    ensures ByteAt(v, 1) as nat == v / 256 % 256
  {
    assert ByteAt(v, 1) == ByteAt(v / 256, 0);
  }

  lemma TwoDigits(v: nat, q: nat)
    requires q == v / 256
    ensures v % 0x1_0000 == v % 256 + 256 * (q % 256)
  {
    var d := q / 256;
    assert v == 256 * q + v % 256 && q == 256 * d + q % 256;
    assert v == 0x1_0000 * d + (256 * (q % 256) + v % 256);
    Remainder16(v, d, 256 * (q % 256) + v % 256);
  }

  lemma Remainder16(v: nat, d: nat, r: nat)
    requires v == 0x1_0000 * d + r && r < 0x1_0000
    ensures v % 0x1_0000 == r
  {
  }

  lemma Remainder32(v: nat, d: nat, r: nat)
    requires v == 0x1_0000_0000 * d + r && r < 0x1_0000_0000
    ensures v % 0x1_0000_0000 == r
  {
  }

  lemma Base256(v: nat)
    ensures v % 0x1_0000_0000 ==
            ByteAt(v, 0) as nat + 256 * ByteAt(v, 1) as nat
            + 65536 * ByteAt(v, 2) as nat + 16777216 * ByteAt(v, 3) as nat
  {
    var high := v / 0x1_0000;
    Base256Twice(v);
    Base256Twice(high);
    HighBytes(v, high);
    Quotient(v, high);
  }

  lemma HighBytes(v: nat, high: nat)
    requires high == v / 0x1_0000
    ensures ByteAt(v, 2) == ByteAt(high, 0) && ByteAt(v, 3) == ByteAt(high, 1)
  {
    assert v / 256 / 256 == high;
    assert ByteAt(v, 3) == ByteAt(v / 256, 2) == ByteAt(v / 256 / 256, 1);
    assert ByteAt(v, 2) == ByteAt(v / 256, 1) == ByteAt(v / 256 / 256, 0);
  }

  lemma Quotient(v: nat, high: nat)
    requires high == v / 0x1_0000
    ensures v % 0x1_0000_0000 == v % 0x1_0000 + 0x1_0000 * (high % 0x1_0000)
  {
    var d := high / 0x1_0000;
    assert v == 0x1_0000 * high + v % 0x1_0000 && high == 0x1_0000 * d + high % 0x1_0000;
    Remainder32(v, d, 0x1_0000 * (high % 0x1_0000) + v % 0x1_0000);
  }
}
