/** Bytes, and the fixed-width integers that the C code copies into byte streams (little endian). */
module Bytes {
  import opened Arithmetic

  type Byte = x: int | 0 <= x < 256

  function LittleEndian(n: nat, width: nat): (s: seq<Byte>)
    ensures |s| == width
  {
    if width == 0 then [] else [n % 256] + LittleEndian(n / 256, width - 1)
  }

  function FromLittleEndian(s: seq<Byte>): nat {
    if |s| == 0 then 0 else s[0] + 256 * FromLittleEndian(s[1..])
  }

  lemma {:induction false} LittleEndianRoundTrip(n: nat, width: nat)
    requires n < Pow(256, width)
    ensures FromLittleEndian(LittleEndian(n, width)) == n
  {
    if width == 0 {
    } else {
      LittleEndianRoundTrip(n / 256, width - 1);
      assert LittleEndian(n, width)[1..] == LittleEndian(n / 256, width - 1);
    }
  }

  /** The widths of size_t, int and of numbers and pointers. */
  const SIZE := 8
  const INT := 4
  const WORD := 8

  const SIZE_LIMIT: nat := 0x1_0000_0000_0000_0000
  const INT_LIMIT: nat := 0x8000_0000

  function SizeBytes(n: nat): (s: seq<Byte>)
    ensures |s| == SIZE
  {
    LittleEndian(n, SIZE)
  }

  /** A 32-bit two's complement int. */
  function IntBytes(i: int): (s: seq<Byte>)
    ensures |s| == INT
  {
    LittleEndian(if i < 0 then (2 * INT_LIMIT + i) % (2 * INT_LIMIT) else i, INT)
  }

  function IntOf(s: seq<Byte>): int {
    var n := FromLittleEndian(s);
    if n < INT_LIMIT then n else n - 2 * INT_LIMIT
  }

  lemma SizeRoundTrip(n: nat)
    requires n < SIZE_LIMIT
    ensures FromLittleEndian(SizeBytes(n)) == n
  {
    assert Pow(256, 8) == SIZE_LIMIT by { PowerOf256(); }
    LittleEndianRoundTrip(n, SIZE);
  }

  lemma IntRoundTrip(i: int)
    requires -(INT_LIMIT as int) <= i < INT_LIMIT
    ensures IntOf(IntBytes(i)) == i
  {
    assert Pow(256, 4) == 2 * INT_LIMIT by { PowerOf256(); }
    LittleEndianRoundTrip(if i < 0 then 2 * INT_LIMIT + i else i, INT);
  }

  lemma PowerOf256()
    ensures Pow(256, 4) == 0x1_0000_0000 && Pow(256, 8) == SIZE_LIMIT
  {
    assert Pow(256, 1) == 256 && Pow(256, 2) == 0x1_0000 && Pow(256, 3) == 0x100_0000;
    assert Pow(256, 4) == 256 * Pow(256, 3) && Pow(256, 5) == 256 * Pow(256, 4);
    assert Pow(256, 6) == 256 * Pow(256, 5) && Pow(256, 7) == 256 * Pow(256, 6) && Pow(256, 8) == 256 * Pow(256, 7);
  }
}
