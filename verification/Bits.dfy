/** 64-bit masks as sets of bit positions. */
module Bits {
  predicate Bit(m: bv64, j: bv7)
    requires j < 64
  {
    m & (1 << j) != 0
  }

  lemma {:induction false} OrShift(m: bv64, j: bv7, k: bv7)
    requires j < 64 && k < 64
    ensures Bit(m | (1 << k), j) <==> Bit(m, j) || j == k
  {
  }

  lemma {:induction false} AndNotShift(m: bv64, j: bv7, k: bv7)
    requires j < 64 && k < 64
    ensures Bit(m & !(1 << k), j) <==> Bit(m, j) && j != k
  {
  }

  function SetAt(m: bv64, j: bv7): bv64
    requires j < 64
  {
    m | (1 << j)
  }

  function ClearAt(m: bv64, j: bv7): bv64
    requires j < 64
  {
    m & !(1 << j)
  }

  lemma {:induction false} SetBit(m: bv64, j: bv7, k: bv7)
    requires j < 64 && k < 64
    ensures Bit(SetAt(m, k), j) <==> Bit(m, j) || j == k
  {
    OrShift(m, j, k);
    hide Bit;
  }

  lemma {:induction false} ClearBit(m: bv64, j: bv7, k: bv7)
    requires j < 64 && k < 64
    ensures Bit(ClearAt(m, k), j) <==> Bit(m, j) && j != k
  {
    AndNotShift(m, j, k);
    hide Bit;
  }

  function Position(j: nat): (p: bv7)
    requires j < 64
    ensures p < 64
  {
    j as bv7
  }

  lemma {:induction false} PositionsDiffer(a: nat, b: nat)
    requires a < 64 && b < 64
    ensures Position(a) == Position(b) <==> a == b
  {
    hide Position;
    PositionValue(a);
    PositionValue(b);
  }

  lemma {:induction false} PositionValue(a: nat)
    requires a < 64
    ensures Position(a) as int == a
  {
  }

  lemma {:induction false} PositionBack(p: bv7)
    requires p < 64
    ensures p as int < 64 && Position(p as int) == p
  {
  }

  predicate Used(m: bv64, j: nat)
    requires j < 64
  {
    Bit(m, Position(j))
  }

  function Set(m: bv64, j: nat): bv64
    requires j < 64
  {
    SetAt(m, Position(j))
  }

  function Clear(m: bv64, j: nat): bv64
    requires j < 64
  {
    ClearAt(m, Position(j))
  }

  lemma {:induction false} SetUsed(m: bv64, j: nat, k: nat)
    requires j < 64 && k < 64
    ensures Used(Set(m, k), j) <==> Used(m, j) || j == k
  {
    hide Bit;
    hide SetAt;
    hide Position;
    PositionsDiffer(j, k);
    SetBit(m, Position(j), Position(k));
  }

  lemma {:induction false} ClearUsed(m: bv64, j: nat, k: nat)
    requires j < 64 && k < 64
    ensures Used(Clear(m, k), j) <==> Used(m, j) && j != k
  {
    hide Bit;
    hide ClearAt;
    hide Position;
    PositionsDiffer(j, k);
    ClearBit(m, Position(j), Position(k));
  }

  lemma {:induction false} NoneUsed(j: nat)
    requires j < 64
    ensures !Used(0, j)
  {
    hide Position;
  }

  /** The first clear bit from `j` on; 64 when there is none. */
  function FirstClear(m: bv64, j: nat): (k: nat)
    requires j <= 64
    ensures j <= k <= 64
    ensures forall i :: j <= i < k ==> Used(m, i)
    ensures k < 64 ==> !Used(m, k)
    decreases 64 - j
  {
    if j == 64 || !Used(m, j) then j else FirstClear(m, j + 1)
  }

  function OnesCount(m: bv64, j: nat): (n: nat)
    requires j <= 64
    decreases 64 - j
  {
    if j == 64 then 0 else (if Used(m, j) then 1 else 0) + OnesCount(m, j + 1)
  }

  /** The lowest `n` bits are all set. */
  predicate LowBits(m: bv64, n: bv7)
    requires n <= 64
  {
    m & ((1 << n) - 1) == (1 << n) - 1
  }

  lemma {:induction false} MoreLowBits(m: bv64, n: bv7)
    requires n < 64 && Bit(m, n) && LowBits(m, n)
    ensures LowBits(m, n + 1)
  {
  }

  lemma {:induction false} LowBitsEnds(m: bv64)
    ensures LowBits(m, 0) && (LowBits(m, 64) ==> !m == 0)
  {
  }

  lemma {:induction false} AllUsed(m: bv64)
    requires forall j: nat :: j < 64 ==> Used(m, j)
    ensures !m == 0
  {
    hide Bit;
    hide Position;
    hide LowBits;
    LowBitsEnds(m);
    var n: bv7 := 0;
    while n < 64
      invariant n <= 64 && LowBits(m, n)
      decreases 64 - n
    {
      PositionBack(n);
      assert Used(m, n as int);
      MoreLowBits(m, n);
      n := n + 1;
    }
  }

  lemma {:induction false} SomeClear(m: bv64, j: nat)
    requires j < 64 && !Used(m, j)
    ensures !m != 0
  {
    hide Position;
  }

  /** A mask has a clear bit exactly when its complement is not zero. */
  lemma {:induction false} NotFull(m: bv64)
    ensures !m != 0 <==> FirstClear(m, 0) < 64
  {
    hide Used;
    var k := FirstClear(m, 0);
    if k < 64 {
      SomeClear(m, k);
    } else {
      AllUsed(m);
    }
  }
}
