/** What a reader of bytes returns, and fixed-width little-endian integers as encoding/binary reads and
    writes them. */
module Bytes {
  import opened Wrappers

  const MAX_UINT32: nat := 0xffff_ffff
  const MAX_UINT64: nat := 0xffff_ffff_ffff_ffff
  const WORD32: nat := 0x1_0000_0000
  const WORD64: nat := 0x1_0000_0000_0000_0000

  /** A value read off the front of a byte string, and what is left. */
  datatype Parsed<+T> = Fail | Got(value: T, rest: seq<byte>)

  type uint64 = n: int | 0 <= n <= 0xffff_ffff_ffff_ffff witness 0

  function LittleEndian(n: nat, width: nat): (s: seq<byte>)
    ensures |s| == width
  {
    if width == 0 then [] else [n % 256] + LittleEndian(n / 256, width - 1)
  }

  function FromLittleEndian(s: seq<byte>): nat {
    if s == [] then 0 else s[0] + 256 * FromLittleEndian(s[1..])
  }

  function Pow256(width: nat): nat { if width == 0 then 1 else 256 * Pow256(width - 1) }

  lemma {:induction false} LittleEndianRoundTrip(n: nat, width: nat)
    requires n < Pow256(width)
    ensures FromLittleEndian(LittleEndian(n, width)) == n
  {
    if width > 0 {
      LittleEndianRoundTrip(n / 256, width - 1);
      assert LittleEndian(n, width)[1..] == LittleEndian(n / 256, width - 1);
    }
  }

  lemma {:induction false} Widths()
    ensures Pow256(4) == MAX_UINT32 + 1 && Pow256(8) == MAX_UINT64 + 1
  {
    assert Pow256(2) == 65536 && Pow256(4) == 65536 * 65536;
    assert Pow256(6) == 65536 * Pow256(4) && Pow256(8) == 65536 * Pow256(6);
  }
}
