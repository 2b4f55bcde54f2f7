/**
 CRC-32 as the ZIP writer computes it (packages/core/src/utils/zip.ts), against bitwise division.
 A 32-bit word is the sequence of its bits, lowest first.
 */
module Crc32 {
  import opened Bytes

  type Word = w: seq<bool> | |w| == 32 witness Zeros(32)

  /** The lowest `n` bits of a number, lowest first. */
  function BitsOf(v: nat, n: nat): (bits: seq<bool>)
    ensures |bits| == n
  {
    if n == 0 then [] else [v % 2 == 1] + BitsOf(v / 2, n - 1)
  }

  function FromBits(bits: seq<bool>): nat {
    if bits == [] then 0 else (if bits[0] then 1 else 0) + 2 * FromBits(bits[1..])
  }

  function Zeros(n: nat): (bits: seq<bool>)
    ensures |bits| == n
  {
    seq(n, _ => false)
  }

  function Xor(a: Word, b: Word): Word {
    seq(32, i requires 0 <= i < 32 => a[i] != b[i])
  }

  /** `w >>> n`. */
  function ShiftRight(w: Word, n: nat): Word
    requires n <= 32
  {
    w[n..] + Zeros(n)
  }

  /** The reflected generator polynomial. */
  const POLYNOMIAL: Word := BitsOf(0xedb88320, 32)

  /** `0xffffffff`. */
  function AllOnes(): Word {
    seq(32, _ => true)
  }

  // ---------------------------------------------------------------- division bit by bit

  /** One step of the division: the next message bit against the lowest bit of the remainder. */
  function DivideBit(remainder: Word, bit: bool): Word {
    if remainder[0] != bit then Xor(POLYNOMIAL, ShiftRight(remainder, 1)) else ShiftRight(remainder, 1)
  }

  function DivideBits(remainder: Word, bits: seq<bool>): Word
    decreases |bits|
  {
    if bits == [] then remainder else DivideBits(DivideBit(remainder, bits[0]), bits[1..])
  }

  /** The message as bits: each byte lowest bit first. */
  function MessageBits(data: seq<byte>): seq<bool> {
    if data == [] then [] else MessageBits(data[..|data| - 1]) + BitsOf(data[|data| - 1] as nat, 8)
  }

  /** The checksum by definition: all-ones preset, division by every message bit, complement. */
  function Checksum(data: seq<byte>): Word {
    Xor(DivideBits(AllOnes(), MessageBits(data)), AllOnes())
  }

  // ---------------------------------------------------------------- the table

  /** The statement of the inner table loop. */
  function ShiftOnce(c: Word): Word {
    if c[0] then Xor(POLYNOMIAL, ShiftRight(c, 1)) else ShiftRight(c, 1)
  }

  function Shift(c: Word, k: nat): Word
    decreases k
  {
    if k == 0 then c else Shift(ShiftOnce(c), k - 1)
  }

  method BuildTable() returns (table: array<Word>)
    ensures fresh(table) && table.Length == 256
    ensures forall n :: 0 <= n < 256 ==> table[n] == Shift(BitsOf(n, 32), 8)
  {
    table := new Word[256];
    for n := 0 to 256
      invariant forall i :: 0 <= i < n ==> table[i] == Shift(BitsOf(i, 32), 8)
    {
      var word := TableWord(n);
      table[n] := word;
    }
  }

  /** The inner loop of the table: eight steps from the index itself. */
  method TableWord(n: nat) returns (c: Word)
    ensures c == Shift(BitsOf(n, 32), 8)
  {
    c := BitsOf(n, 32);
    for k := 0 to 8
      invariant Shift(c, 8 - k) == Shift(BitsOf(n, 32), 8)
    {
      c := ShiftOnce(c);
    }
  }

  // ---------------------------------------------------------------- linearity

  lemma ShiftOnceLinear(a: Word, b: Word)
    ensures ShiftOnce(Xor(a, b)) == Xor(ShiftOnce(a), ShiftOnce(b))
  {
  }

  lemma {:induction false} ShiftLinear(a: Word, b: Word, k: nat)
    ensures Shift(Xor(a, b), k) == Xor(Shift(a, k), Shift(b, k))
    decreases k
  {
    if k > 0 {
      ShiftOnceLinear(a, b);
      ShiftLinear(ShiftOnce(a), ShiftOnce(b), k - 1);
    }
  }

  /** Shifting out zero bits never brings in the polynomial. */
  lemma {:induction false} ShiftZeros(c: Word, n: nat)
    requires n <= 32 && c[..n] == Zeros(n)
    ensures Shift(c, n) == ShiftRight(c, n)
    decreases n
  {
    if n > 0 {
      var d := ShiftRight(c, 1);
      assert forall i :: 0 <= i < n - 1 ==> d[i] == c[..n][i + 1];
      assert c[0] == c[..n][0];
      ShiftZeros(d, n - 1);
      assert ShiftRight(d, n - 1) == ShiftRight(c, n);
    } else {
      assert ShiftRight(c, 0) == c;
    }
  }

  /** Eight steps at once: one table lookup for the low byte, a shift for the rest. */
  lemma TableStep(c: Word)
    ensures Shift(c, 8) == Xor(Shift(c[..8] + Zeros(24), 8), ShiftRight(c, 8))
  {
    var low: Word, high: Word := c[..8] + Zeros(24), Zeros(8) + c[8..];
    assert c == Xor(low, high);
    ShiftLinear(low, high, 8);
    ShiftZeros(high, 8);
    assert ShiftRight(high, 8) == ShiftRight(c, 8);
  }

  // ---------------------------------------------------------------- the table against the division

  /** Dividing by `bits` is shifting the remainder xored with them. */
  lemma {:induction false} DivideBitsIsShift(r: Word, bits: seq<bool>)
    requires |bits| <= 32
    ensures DivideBits(r, bits) == Shift(Xor(r, bits + Zeros(32 - |bits|)), |bits|)
    decreases |bits|
  {
    var e: Word := bits + Zeros(32 - |bits|);
    if bits == [] {
      assert Xor(r, e) == r;
    } else {
      FirstBit(r, bits);
      DivideBitsIsShift(DivideBit(r, bits[0]), bits[1..]);
    }
  }

  /** One shift of the remainder xored with the bits divides by the first bit and leaves the others to be xored. */
  lemma FirstBit(r: Word, bits: seq<bool>)
    requires 0 < |bits| <= 32
    ensures ShiftOnce(Xor(r, bits + Zeros(32 - |bits|))) == Xor(DivideBit(r, bits[0]), bits[1..] + Zeros(33 - |bits|))
  {
    var e: Word := bits + Zeros(32 - |bits|);
    var next: Word := bits[1..] + Zeros(33 - |bits|);
    assert next == ShiftRight(e, 1);
  }

  lemma {:induction false} DivideBitsConcat(r: Word, a: seq<bool>, b: seq<bool>)
    ensures DivideBits(r, a + b) == DivideBits(DivideBits(r, a), b)
    decreases |a|
  {
    if a == [] {
      assert a + b == b;
    } else {
      assert (a + b)[1..] == a[1..] + b;
      DivideBitsConcat(DivideBit(r, a[0]), a[1..], b);
    }
  }

  /** One byte: the loop body of `crc32` divides by the byte's eight bits. */
  lemma ByteStep(r: Word, d: byte)
    ensures var x := Xor(r, BitsOf(d as nat, 8) + Zeros(24));
            DivideBits(r, BitsOf(d as nat, 8)) == Xor(Shift(x[..8] + Zeros(24), 8), ShiftRight(r, 8))
  {
    var e: Word := BitsOf(d as nat, 8) + Zeros(24);
    var x := Xor(r, e);
    DivideBitsIsShift(r, BitsOf(d as nat, 8));
    TableStep(x);
    assert ShiftRight(x, 8) == ShiftRight(r, 8);
  }

  // ---------------------------------------------------------------- words and numbers

  lemma {:induction false} BitsOfFromBits(bits: seq<bool>, n: nat)
    requires |bits| <= n
    ensures BitsOf(FromBits(bits), n) == bits + Zeros(n - |bits|)
    decreases n
  {
    if bits == [] {
      BitsOfZero(n);
    } else {
      BitsOfFromBits(bits[1..], n - 1);
      assert FromBits(bits) / 2 == FromBits(bits[1..]);
    }
  }

  lemma {:induction false} BitsOfZero(n: nat)
    ensures BitsOf(0, n) == Zeros(n)
  {
    if n > 0 {
      BitsOfZero(n - 1);
    }
  }

  function Power2(n: nat): nat {
    if n == 0 then 1 else 2 * Power2(n - 1)
  }

  /**
   The constant is the generator polynomial of CRC-32 (section 8.1.1.6.2 of ITU-T V.42) with its bits reversed: bit
   31 - k is set for each term x^k, with k one of 0, 1, 2, 4, 5, 7, 8, 10, 11, 12, 16, 22, 23 and 26.
   */
  lemma PolynomialTerms()
    ensures POLYNOMIAL ==
            BitsOf(Power2(31) + Power2(30) + Power2(29) + Power2(27) + Power2(26) + Power2(24) + Power2(23)
                   + Power2(21) + Power2(20) + Power2(19) + Power2(15) + Power2(9) + Power2(8) + Power2(5), 32)
  {
    assert Power2(8) == 256 && Power2(16) == 0x100 * Power2(8) && Power2(24) == 0x100 * Power2(16);
  }

  lemma {:induction false} FromBitsBound(bits: seq<bool>)
    ensures FromBits(bits) < Power2(|bits|)
  {
    if bits != [] {
      FromBitsBound(bits[1..]);
    }
  }

  /** The index `x & 0xff` is in the table and stands for the low byte of `x`. */
  lemma LowByteIndex(x: Word)
    ensures FromBits(x[..8]) < 256 && BitsOf(FromBits(x[..8]), 32) == x[..8] + Zeros(24)
  {
    FromBitsBound(x[..8]);
    assert Power2(8) == 2 * Power2(7) == 4 * Power2(6) == 8 * Power2(5) == 16 * Power2(4) == 32 * Power2(3);
    BitsOfFromBits(x[..8], 32);
  }

  /** Table-driven `crc32` is the bit-by-bit division, for every byte sequence. */
  method ComputeCrc32(data: seq<byte>) returns (result: Word)
    ensures result == Checksum(data)
  {
    var table := BuildTable();
    var crc := AllOnes();
    for i := 0 to |data|
      invariant crc == DivideBits(AllOnes(), MessageBits(data[..i]))
      invariant table.Length == 256 && forall n :: 0 <= n < 256 ==> table[n] == Shift(BitsOf(n, 32), 8)
    {
      assert data[..i + 1][..i] == data[..i];
      DivideBitsConcat(AllOnes(), MessageBits(data[..i]), BitsOf(data[i] as nat, 8));
      ByteStep(crc, data[i]);
      var x := Xor(crc, BitsOf(data[i] as nat, 8) + Zeros(24));
      LowByteIndex(x);
      crc := Xor(table[FromBits(x[..8])], ShiftRight(crc, 8));
    }
    assert data[..|data|] == data;
    result := Xor(crc, AllOnes());
  }
}
