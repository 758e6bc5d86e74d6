/** The walk through the mapping blocks (internal/ctfs/container.go:378-588), proved against the
    enumeration, and the bytes of a file. */
module Mapping {
  import opened Wrappers
  import opened Arithmetic
  import opened Bytes
  import opened MappingSpec

  lemma {:induction false} BlockInside(blk: nat, nextFree: nat, blockSize: nat, size: nat)
    requires blockSize > 0 && nextFree == size / blockSize && blk < nextFree
    ensures blk * blockSize + blockSize <= size
  {
    assert (blk + 1) * blockSize <= nextFree * blockSize;
  }

  function BlockAt(file: seq<byte>, blockSize: nat, i: nat): (block: seq<byte>)
    requires blockSize > 0 && i < |file| / blockSize
    ensures |block| == blockSize
  {
    BlockInside(i, |file| / blockSize, blockSize, |file|);
    file[i * blockSize..i * blockSize + blockSize]
  }

  /** The whole blocks of a file; a partial tail belongs to none. */
  ghost function Blocks(file: seq<byte>, blockSize: nat): (disk: Disk)
    requires blockSize > 0
    ensures |disk| == |file| / blockSize
    ensures forall i :: 0 <= i < |disk| ==> |disk[i]| == blockSize
  {
    seq(|file| / blockSize, i requires 0 <= i < |file| / blockSize => BlockAt(file, blockSize, i))
  }

  lemma {:induction false} PowMonotone(u: nat, a: nat, b: nat)
    requires u >= 1 && a <= b
    ensures Pow(u, a) <= Pow(u, b)
    decreases b - a
  {
    if a < b {
      PowMonotone(u, a + 1, b);
      assert Pow(u, a) <= u * Pow(u, a);
    }
  }

  /** A capacity is only computed once the one below it was passed, so it is small: a mapping block
      addresses fewer blocks than fit in 2^60 bytes. */
  lemma {:induction false} CapacityFits(u: nat, level: nat, idx: nat)
    requires u >= 1 && level >= 1 && (level > 1 ==> Pow(u, level - 1) <= idx)
    requires idx * (8 * (u + 1)) < INT_LIMIT && u < 0x2000_0000
    ensures Pow(u, level) < WORD64
  {
    if level > 1 {
      var p := Pow(u, level - 1);
      assert u * p <= idx * (8 * (u + 1)) by {
        assert u * p <= u * idx;
        assert idx * (8 * (u + 1)) == 8 * (u * idx) + 8 * idx;
      }
    } else {
      assert Pow(u, 1) == u * Pow(u, 0);
    }
  }

  /** `usable` to the power `level` in 64-bit arithmetic: exact when the power fits. */
  method LevelCapacity(usable: nat, level: nat) returns (capacity: nat)
    requires usable >= 1
    ensures Pow(usable, level) < WORD64 ==> capacity == Pow(usable, level)
  {
    capacity := 1;
    for i := 0 to level
      invariant Pow(usable, level) < WORD64 ==> capacity == Pow(usable, i)
    {
      PowMonotone(usable, i + 1, level);
      assert Pow(usable, i + 1) == usable * Pow(usable, i);
      capacity := capacity * usable % WORD64;
    }
  }

  /** One level down: where the walk goes on, or that there is nothing to find. */
  lemma {:induction false} DescendStep(disk: Disk, blockSize: nat, level: nat, cur: nat, idx: nat, subCap: nat)
    requires DiskOk(disk, blockSize) && level > 1 && idx < Pow(Usable(blockSize), level)
    requires subCap == Pow(Usable(blockSize), level - 1)
    ensures subCap > 0 && 0 <= idx / subCap < Usable(blockSize) && 0 <= idx % subCap < subCap
    ensures var here := Leaves(disk, blockSize, level, cur)[idx];
            if !Readable(disk, cur) || Word(disk[cur], idx / subCap) == 0 then here == None
            else here == Leaves(disk, blockSize, level - 1, Word(disk[cur], idx / subCap))[idx % subCap]
  {
    hide Leaves;
    hide Pow;
    hide Word;
    Descend(disk, blockSize, level, cur, idx);
    if Readable(disk, cur) && Word(disk[cur], idx / subCap) == 0 {
      HoleAt(disk, blockSize, level - 1, 0, idx % subCap);
    }
  }

  /** Reads an entry's data through its mapping blocks, keeping the mapping blocks it has read. */
  class Mapper {
    const file: seq<byte>
    const blockSize: nat
    const nextFree: nat
    var cache: map<nat, seq<byte>>

    ghost function Disk(): Disk
      requires blockSize > 0
    {
      Blocks(file, blockSize)
    }

    ghost predicate Valid()
      reads this
    {
      && BlockSizeOk(blockSize) && nextFree == |file| / blockSize
      && forall b :: b in cache ==> Block(Disk(), b) == Some(cache[b])
    }

    constructor (file: seq<byte>, blockSize: nat)
      requires BlockSizeOk(blockSize)
      ensures Valid() && this.file == file && this.blockSize == blockSize && cache == map[]
    {
      this.file := file;
      this.blockSize := blockSize;
      nextFree := |file| / blockSize;
      cache := map[];
    }

    method ReadBlock(blk: nat) returns (r: Option<seq<byte>>)
      requires Valid()
      ensures r == Block(Disk(), blk)
    {
      if blk == 0 || blk >= nextFree {
        return None;
      }
      r := Some(BlockAt(file, blockSize, blk));
    }

    method CachedBlock(blk: nat) returns (r: Option<seq<byte>>)
      requires Valid()
      modifies this
      ensures Valid() && r == Block(Disk(), blk)
      ensures forall b :: b in cache ==> b in old(cache) || b == blk
    {
      if blk in cache {
        return Some(cache[blk]);
      }
      r := ReadBlock(blk);
      if r.Some? {
        cache := cache[blk := r.value];
      }
    }

    /** One word of a mapping block. */
    method ReadWord(blk: nat, slot: nat) returns (r: Option<nat>)
      requires Valid() && slot <= Usable(blockSize)
      modifies this
      ensures Valid() && r == if Readable(Disk(), blk) then Some(Word(Disk()[blk], slot)) else None
    {
      var block := CachedBlock(blk);
      if block.None? {
        return None;
      }
      r := Some(Word(block.value, slot));
    }

    /** The second half of the walk: from a tree of `level` down to its leaf `leaf`. */
    method DescendTo(root: nat, top: nat, leaf: nat) returns (r: Option<nat>)
      requires Valid() && 1 <= top && leaf < Pow(Usable(blockSize), top) < WORD64
      modifies this
      ensures Valid() && r == Leaves(Disk(), blockSize, top, root)[leaf]
    {
      hide Leaves;
      hide Pow;
      hide Word;
      hide Blocks;
      var usable := blockSize / 8 - 1;
      var idx: nat, level: nat, cur: nat := leaf, top, root;
      while level > 1
        invariant Valid() && 1 <= level <= top && idx < Pow(usable, level)
        invariant Leaves(Disk(), blockSize, top, root)[leaf] == Leaves(Disk(), blockSize, level, cur)[idx]
      {
        PowMonotone(usable, level - 1, top);
        var subCap := LevelCapacity(usable, level - 1);
        DescendStep(Disk(), blockSize, level, cur, idx, subCap);
        var entryIdx, subIdx := idx / subCap, idx % subCap;
        var child := ReadWord(cur, entryIdx);
        if child.None? {
          return None;
        }
        if child.value == 0 {
          return None;
        }
        cur, idx, level := child.value, subIdx, level - 1;
      }
      LowestLevel(Disk(), blockSize, cur, idx);
      var dataBlk := ReadWord(cur, idx);
      if dataBlk.None? || dataBlk.value == 0 || dataBlk.value >= nextFree {
        return None;
      }
      r := dataBlk;
    }

    /** The container block holding the file's `blockIdx`-th block: exactly the `blockIdx`-th leaf,
        from left to right, of the chain of trees at `root`. */
    method ResolveDataBlock(root: nat, blockIdx: nat) returns (r: Option<nat>)
      requires Valid() && blockIdx * blockSize < INT_LIMIT
      modifies this
      ensures Valid() && r == At(Chain(Disk(), blockSize, 1, root), blockIdx)
    {
      hide Chain;
      hide Leaves;
      hide Pow;
      hide Word;
      hide Blocks;
      var usable := blockSize / 8 - 1;
      var idx, level, cur := blockIdx, 1, root;
      CapacityFits(usable, level, blockIdx);
      var capacity := LevelCapacity(usable, level);
      while idx >= capacity
        invariant Valid() && 1 <= level <= MAX_MAP_LEVELS && 0 <= idx <= blockIdx
        invariant capacity == Pow(usable, level) < WORD64
        invariant At(Chain(Disk(), blockSize, 1, root), blockIdx) == At(Chain(Disk(), blockSize, level, cur), idx)
        decreases MAX_MAP_LEVELS - level
      {
        ChainStep(Disk(), blockSize, level, cur, idx);
        idx := idx - capacity;
        level := level + 1;
        if level > MAX_MAP_LEVELS {
          return None;
        }
        var chain := ReadWord(cur, usable);
        if chain.None? {
          return None;
        }
        if chain.value == 0 {
          BrokenChain(Disk(), blockSize, level, chain.value, idx);
          return None;
        }
        cur := chain.value;
        CapacityFits(usable, level, blockIdx);
        capacity := LevelCapacity(usable, level);
      }
      ChainStep(Disk(), blockSize, level, cur, idx);
      r := DescendTo(cur, level, idx);
    }

    /** The data blocks of a whole file, or nothing when one of them is missing. */
    method DataBlocks(size: nat, root: nat) returns (r: Option<seq<nat>>)
      requires Valid() && size < INT_LIMIT
      modifies this
      ensures Valid() && r == DataBlockList(Chain(Disk(), blockSize, 1, root), BlockCount(size, blockSize))
    {
      hide Chain;
      hide Blocks;
      var n := (size + blockSize - 1) / blockSize;
      BlockCountExact(size, blockSize);
      ghost var chain := Chain(Disk(), blockSize, 1, root);
      var out := [];
      for i := 0 to n
        invariant Valid() && DataBlockList(chain, i) == Some(out)
      {
        var blk := ResolveDataBlock(root, i);
        if blk.None? {
          MissingStays(chain, i, n);
          return None;
        }
        out := out + [blk.value];
      }
      r := Some(out);
    }

    /** An internal file's bytes. */
    method ReadEntry(size: nat, root: nat) returns (r: Option<seq<byte>>)
      requires Valid() && |file| < INT_LIMIT
      modifies this
      ensures Valid() && r == EntryContent(Disk(), blockSize, size, root)
    {
      hide Chain;
      hide Blocks;
      if size == 0 {
        return Some([]);
      }
      if size >= INT_LIMIT {
        return None;
      }
      var blocks := DataBlocks(size, root);
      if blocks.None? {
        return None;
      }
      ListedInside(Disk(), blockSize, root, BlockCount(size, blockSize));
      var out := Copy(blocks.value, size);
      r := Some(out);
    }

    /** Copy each block to its place, the last one only up to the size. */
    method Copy(blocks: seq<nat>, size: nat) returns (bytes: seq<byte>)
      requires Valid() && |blocks| == BlockCount(size, blockSize)
      requires forall i :: 0 <= i < |blocks| ==> blocks[i] < nextFree
      ensures size <= |Contents(Disk(), blockSize, blocks)| && bytes == Contents(Disk(), blockSize, blocks)[..size]
    {
      hide Contents;
      BlockCountExact(size, blockSize);
      var out := new byte[size];
      NoContents(Disk(), blockSize);
      assert blocks[..0] == [];
      for i := 0 to |blocks|
        invariant |Contents(Disk(), blockSize, blocks[..i])| == i * blockSize
        invariant out[..Min(i * blockSize, size)] == Contents(Disk(), blockSize, blocks[..i])[..Min(i * blockSize, size)]
      {
        var start := i * blockSize;
        var end := Min(start + blockSize, size);
        var block := BlockAt(file, blockSize, blocks[i]);
        ghost var before := out[..start];
        forall k | start <= k < end {
          out[k] := block[k - start];
        }
        assert out[..end] == before + block[..end - start];
        MoreContents(Disk(), blockSize, blocks, i);
        assert (i + 1) * blockSize == start + blockSize;
      }
      assert blocks[..|blocks|] == blocks;
      bytes := out[..];
      assert out[..size] == out[..];
    }
  }

  lemma {:induction false} NoContents(disk: Disk, blockSize: nat)
    requires DiskOk(disk, blockSize)
    ensures Contents(disk, blockSize, []) == []
  {
  }

  lemma {:induction false} MoreContents(disk: Disk, blockSize: nat, blocks: seq<nat>, i: nat)
    requires DiskOk(disk, blockSize) && i < |blocks| && forall k :: 0 <= k < |blocks| ==> blocks[k] < |disk|
    ensures Contents(disk, blockSize, blocks[..i + 1]) == Contents(disk, blockSize, blocks[..i]) + disk[blocks[i]]
  {
    assert blocks[..i + 1][..i] == blocks[..i];
  }

  /** One missing block is enough. */
  lemma {:induction false} MissingStays(chain: seq<Option<nat>>, i: nat, n: nat)
    requires i < n && At(chain, i).None?
    ensures DataBlockList(chain, n).None?
  {
    ListedExactly(chain, n);
  }

  /** The first `n` data blocks of a chain, if none of them is a hole. */
  ghost function DataBlockList(chain: seq<Option<nat>>, n: nat): Option<seq<nat>> {
    if n == 0 then Some([])
    else
      var before, last := DataBlockList(chain, n - 1), At(chain, n - 1);
      if before.None? || last.None? then None else Some(before.value + [last.value])
  }

  /** It exists exactly when every one of them does, and lists them in order. */
  lemma {:induction false} ListedExactly(chain: seq<Option<nat>>, n: nat)
    ensures DataBlockList(chain, n).Some? <==> forall i: nat :: i < n ==> At(chain, i).Some?
    ensures DataBlockList(chain, n).Some? ==>
              && |DataBlockList(chain, n).value| == n
              && forall i: nat :: i < n ==> At(chain, i) == Some(DataBlockList(chain, n).value[i])
  {
    if n > 0 { ListedExactly(chain, n - 1); }
  }

  /** The bytes of the listed blocks, one after the other. */
  ghost function Contents(disk: Disk, blockSize: nat, blocks: seq<nat>): (s: seq<byte>)
    requires DiskOk(disk, blockSize) && forall i :: 0 <= i < |blocks| ==> blocks[i] < |disk|
    ensures |s| == |blocks| * blockSize
  {
    if blocks == [] then []
    else
      var last := |blocks| - 1;
      assert |blocks| * blockSize == last * blockSize + blockSize;
      Contents(disk, blockSize, blocks[..last]) + disk[blocks[last]]
  }

  lemma {:induction false} FollowReadable(disk: Disk, blockSize: nat, blk: nat, path: seq<nat>)
    requires DiskOk(disk, blockSize) && ChildSlots(Usable(blockSize), path)
    ensures var r := Follow(disk, blockSize, blk, path); r.Some? ==> Readable(disk, r.value)
    decreases |path|
  {
    if path != [] && Readable(disk, blk) {
      assert path[0] < Usable(blockSize);
      FollowReadable(disk, blockSize, Word(disk[blk], path[0]), path[1..]);
    }
  }

  /** A resolved block is a whole block of the container, and not block 0. */
  lemma {:induction false} ResolvedIsInside(disk: Disk, blockSize: nat, root: nat, idx: nat)
    requires DiskOk(disk, blockSize)
    ensures var r := At(Chain(disk, blockSize, 1, root), idx); r.Some? ==> Readable(disk, r.value)
  {
    hide Chain;
    hide Follow;
    var slot := SlotOf(Usable(blockSize), 1, idx);
    EnumerationIsSlots(disk, blockSize, 1, root, idx);
    if slot.Some? {
      var head := ChainRoot(disk, blockSize, 1, root, slot.value.level);
      if head.Some? {
        FollowReadable(disk, blockSize, head.value, slot.value.path);
      }
    }
  }

  lemma {:induction false} ListedInside(disk: Disk, blockSize: nat, root: nat, n: nat)
    requires DiskOk(disk, blockSize)
    ensures var list := DataBlockList(Chain(disk, blockSize, 1, root), n);
            list.Some? ==> |list.value| == n && forall i :: 0 <= i < n ==> list.value[i] < |disk|
  {
    hide Chain;
    var chain := Chain(disk, blockSize, 1, root);
    ListedExactly(chain, n);
    forall i: nat | i < n
      ensures DataBlockList(chain, n).Some? ==> DataBlockList(chain, n).value[i] < |disk|
    {
      ResolvedIsInside(disk, blockSize, root, i);
      assert DataBlockList(chain, n).Some? ==> At(chain, i) == Some(DataBlockList(chain, n).value[i]);
    }
  }

  function BlockCount(size: nat, blockSize: nat): nat
    requires blockSize > 0
  {
    (size + blockSize - 1) / blockSize
  }

  /** The blocks cover the file and every one of them starts inside it. */
  lemma {:induction false} BlockCountExact(size: nat, blockSize: nat)
    requires blockSize > 0
    ensures size <= BlockCount(size, blockSize) * blockSize
    ensures forall i: nat :: i < BlockCount(size, blockSize) ==> i * blockSize < size
  {
    var n := BlockCount(size, blockSize);
    assert size + blockSize - 1 == n * blockSize + (size + blockSize - 1) % blockSize;
    forall i: nat | i < n
      ensures i * blockSize < size
    {
      MulLe(i + 1, n, blockSize);
      Distribute(i, 1, blockSize);
    }
  }

  /** What an entry's file is: its data blocks end to end, cut to its size. A size that no slice can
      have yields nothing. */
  ghost function EntryContent(disk: Disk, blockSize: nat, size: nat, root: nat): (r: Option<seq<byte>>)
    requires DiskOk(disk, blockSize)
    ensures r.Some? ==> |r.value| == size
  {
    if size == 0 then Some([])
    else if size >= INT_LIMIT then None
    else
      var n := BlockCount(size, blockSize);
      var list := DataBlockList(Chain(disk, blockSize, 1, root), n);
      ListedInside(disk, blockSize, root, n);
      BlockCountExact(size, blockSize);
      if list.None? then None else Some(Contents(disk, blockSize, list.value)[..size])
  }

  lemma {:induction false} HoleAt(disk: Disk, blockSize: nat, level: nat, blk: nat, idx: nat)
    requires DiskOk(disk, blockSize) && !Readable(disk, blk) && idx < Pow(Usable(blockSize), level)
    ensures Leaves(disk, blockSize, level, blk)[idx] == None
  {
  }

  lemma {:induction false} BrokenChain(disk: Disk, blockSize: nat, level: nat, blk: nat, idx: nat)
    requires DiskOk(disk, blockSize) && !Readable(disk, blk) && 1 <= level <= MAX_MAP_LEVELS
    ensures At(Chain(disk, blockSize, level, blk), idx) == None
  {
    hide Leaves;
    if idx < Pow(Usable(blockSize), level) {
      HoleAt(disk, blockSize, level, blk, idx);
    }
  }

  lemma {:induction false} LowestLevel(disk: Disk, blockSize: nat, blk: nat, idx: nat)
    requires DiskOk(disk, blockSize) && idx < Pow(Usable(blockSize), 1)
    ensures idx < Usable(blockSize)
    ensures Leaves(disk, blockSize, 1, blk)[idx] ==
            if Readable(disk, blk) then Leaf(disk, Word(disk[blk], idx)) else None
  {
    assert Pow(Usable(blockSize), 0) == 1;
    Descend(disk, blockSize, 1, blk, idx);
  }
}
