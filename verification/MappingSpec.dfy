/** The five-level block mapping of a container (internal/ctfs/container.go:366-565), read as plain
    left-to-right enumeration: each mapping block of level L is a tree of `usable` subtrees, and the
    word after the last child chains to the root of the next, one level deeper, tree. */
module MappingSpec {
  import opened Wrappers
  import opened Arithmetic
  import opened Bytes

  const MAX_MAP_LEVELS: nat := 5
  /** Go's largest slice length and file offset, plus one. */
  const INT_LIMIT: nat := 0x8000_0000_0000_0000

  /** The whole blocks of a container. */
  type Disk = seq<seq<byte>>

  predicate BlockSizeOk(blockSize: nat) { 16 <= blockSize < 0x1_0000_0000 && blockSize % 8 == 0 }

  ghost predicate DiskOk(disk: Disk, blockSize: nat) {
    BlockSizeOk(blockSize) && forall i :: 0 <= i < |disk| ==> |disk[i]| == blockSize
  }

  /** Child pointers per mapping block; the word after them is the chain pointer. */
  function Usable(blockSize: nat): (u: nat)
    requires BlockSizeOk(blockSize)
    ensures u >= 1 && 8 * (u + 1) == blockSize
  {
    blockSize / 8 - 1
  }

  /** Block 0 and the blocks past the end are never read through a pointer. */
  predicate Readable(disk: Disk, blk: nat) { 0 < blk < |disk| }

  function Block(disk: Disk, blk: nat): Option<seq<byte>> {
    if Readable(disk, blk) then Some(disk[blk]) else None
  }

  function Word(block: seq<byte>, i: nat): nat
    requires 8 * i + 8 <= |block|
  {
    FromLittleEndian(block[8 * i..8 * i + 8])
  }

  function Pow(u: nat, level: nat): (p: nat)
    ensures u >= 1 ==> p >= 1
  {
    if level == 0 then 1 else u * Pow(u, level - 1)
  }

  /** A data pointer that names a block of the container. */
  function Leaf(disk: Disk, w: nat): Option<nat> { if Readable(disk, w) then Some(w) else None }

  function Holes(n: nat): (s: seq<Option<nat>>)
    ensures |s| == n && forall i :: 0 <= i < n ==> s[i] == None
  {
    seq(n, _ => None)
  }

  /** The data pointers below a mapping block of `level`, from left to right; a subtree that cannot
      be read is all holes. */
  ghost function Leaves(disk: Disk, blockSize: nat, level: nat, blk: nat): (s: seq<Option<nat>>)
    requires DiskOk(disk, blockSize)
    ensures |s| == Pow(Usable(blockSize), level)
    decreases level, 0
  {
    if level == 0 then [Leaf(disk, blk)]
    else if !Readable(disk, blk) then Holes(Pow(Usable(blockSize), level))
    else Children(disk, blockSize, level, blk, Usable(blockSize))
  }

  /** The leaves below the first `k` children of a mapping block. */
  ghost function Children(disk: Disk, blockSize: nat, level: nat, blk: nat, k: nat): (s: seq<Option<nat>>)
    requires DiskOk(disk, blockSize) && level > 0 && Readable(disk, blk) && k <= Usable(blockSize)
    ensures |s| == k * Pow(Usable(blockSize), level - 1)
    decreases level - 1, k + 1
  {
    if k == 0 then []
    else
      assert k * Pow(Usable(blockSize), level - 1) ==
             (k - 1) * Pow(Usable(blockSize), level - 1) + Pow(Usable(blockSize), level - 1);
      Children(disk, blockSize, level, blk, k - 1) + Leaves(disk, blockSize, level - 1, Word(disk[blk], k - 1))
  }

  /** The whole file: the tree of `level`, then the deeper trees it chains to. */
  ghost function Chain(disk: Disk, blockSize: nat, level: nat, blk: nat): seq<Option<nat>>
    requires DiskOk(disk, blockSize) && level <= MAX_MAP_LEVELS
    decreases MAX_MAP_LEVELS - level
  {
    Leaves(disk, blockSize, level, blk) +
    if level == MAX_MAP_LEVELS || !Readable(disk, blk) then []
    else Chain(disk, blockSize, level + 1, Word(disk[blk], Usable(blockSize)))
  }

  function At(s: seq<Option<nat>>, i: nat): Option<nat> { if i < |s| then s[i] else None }

  // ---- the tree, one level down ------------------------------------------------

  lemma {:induction false} DivMod(idx: nat, p: nat, k: nat)
    requires p >= 1 && k >= 1 && (k - 1) * p <= idx < k * p
    ensures idx / p == k - 1 && idx % p == idx - (k - 1) * p
  {
    Distribute(k - 1, 1, p);
    DivModUnique(idx, k - 1, idx - (k - 1) * p, p);
  }

  lemma {:induction false} ChildAt(disk: Disk, blockSize: nat, level: nat, blk: nat, k: nat, idx: nat)
    requires DiskOk(disk, blockSize) && level > 0 && Readable(disk, blk) && k <= Usable(blockSize)
    requires idx < k * Pow(Usable(blockSize), level - 1)
    ensures var p := Pow(Usable(blockSize), level - 1);
            && idx / p < k
            && Children(disk, blockSize, level, blk, k)[idx] ==
               Leaves(disk, blockSize, level - 1, Word(disk[blk], idx / p))[idx % p]
    decreases k
  {
    var p := Pow(Usable(blockSize), level - 1);
    assert k > 0;
    var before := (k - 1) * p;
    assert k * p == before + p;
    if idx < before {
      ChildAt(disk, blockSize, level, blk, k - 1, idx);
    } else {
      DivMod(idx, p, k);
    }
  }

  /** One step down: slot `idx / usable^(level-1)`, which is never the chain slot. */
  lemma {:induction false} Descend(disk: Disk, blockSize: nat, level: nat, blk: nat, idx: nat)
    requires DiskOk(disk, blockSize) && level > 0 && idx < Pow(Usable(blockSize), level)
    ensures var p := Pow(Usable(blockSize), level - 1);
            && idx / p < Usable(blockSize) && idx % p < p
            && Leaves(disk, blockSize, level, blk)[idx] ==
               if Readable(disk, blk)
               then Leaves(disk, blockSize, level - 1, Word(disk[blk], idx / p))[idx % p]
               else None
  {
    var u := Usable(blockSize);
    var p := Pow(u, level - 1);
    if Readable(disk, blk) {
      ChildAt(disk, blockSize, level, blk, u, idx);
    } else {
      DivBound(idx, p, u);
    }
  }

  lemma {:induction false} DivBound(idx: nat, p: nat, u: nat)
    requires p >= 1 && idx < u * p
    ensures idx / p < u
  {
    assert idx / p * p <= idx;
  }

  // ---- slots -------------------------------------------------------------------

  /** The slots followed from a root of `level` down to its leaf `idx`. */
  function Path(u: nat, level: nat, idx: nat): (path: seq<nat>)
    requires u >= 1 && idx < Pow(u, level)
    ensures |path| == level
  {
    if level == 0 then []
    else
      DivBound(idx, Pow(u, level - 1), u);
      [idx / Pow(u, level - 1)] + Path(u, level - 1, idx % Pow(u, level - 1))
  }

  /** The leaf a path of slots leads to, counted from the left. */
  function LeafIndex(u: nat, path: seq<nat>): nat {
    if path == [] then 0 else path[0] * Pow(u, |path| - 1) + LeafIndex(u, path[1..])
  }

  predicate ChildSlots(u: nat, path: seq<nat>) { forall k :: 0 <= k < |path| ==> path[k] < u }

  /** Read the words a path names. */
  ghost function Follow(disk: Disk, blockSize: nat, blk: nat, path: seq<nat>): Option<nat>
    requires DiskOk(disk, blockSize) && ChildSlots(Usable(blockSize), path)
    decreases |path|
  {
    if path == [] then Leaf(disk, blk)
    else if !Readable(disk, blk) then None
    else
      assert path[0] < Usable(blockSize);
      Follow(disk, blockSize, Word(disk[blk], path[0]), path[1..])
  }

  lemma {:induction false} Prepend(u: nat, slot: nat, path: seq<nat>)
    requires slot < u && ChildSlots(u, path)
    ensures ChildSlots(u, [slot] + path)
    ensures LeafIndex(u, [slot] + path) == slot * Pow(u, |path|) + LeafIndex(u, path)
  {
    assert ([slot] + path)[1..] == path;
  }

  /** Every slot followed is a child slot, never the chain slot, and the path determines its leaf. */
  lemma {:induction false} PathIsExact(u: nat, level: nat, idx: nat)
    requires u >= 1 && idx < Pow(u, level)
    ensures ChildSlots(u, Path(u, level, idx))
    ensures LeafIndex(u, Path(u, level, idx)) == idx
    decreases level
  {
    hide Pow;
    hide ChildSlots;
    if level > 0 {
      hide Path;
      hide LeafIndex;
      PathStep(u, level, idx);
      var p := Pow(u, level - 1);
      PathIsExact(u, level - 1, idx % p);
      Prepend(u, idx / p, Path(u, level - 1, idx % p));
    } else {
      NoSlots(u, idx);
    }
  }

  lemma {:induction false} NoSlots(u: nat, idx: nat)
    requires u >= 1 && idx < Pow(u, 0)
    ensures ChildSlots(u, []) && idx == 0
  {
  }

  lemma {:induction false} PathStep(u: nat, level: nat, idx: nat)
    requires u >= 1 && level > 0 && idx < Pow(u, level)
    ensures var p := Pow(u, level - 1);
            && idx / p < u && idx % p < p && idx == idx / p * p + idx % p
            && Path(u, level, idx) == [idx / p] + Path(u, level - 1, idx % p)
  {
    DivBound(idx, Pow(u, level - 1), u);
  }

  /** The `idx`-th leaf is the one its path of slots leads to. */
  lemma {:induction false} LeafIsPathEnd(disk: Disk, blockSize: nat, level: nat, blk: nat, idx: nat)
    requires DiskOk(disk, blockSize) && idx < Pow(Usable(blockSize), level)
    ensures ChildSlots(Usable(blockSize), Path(Usable(blockSize), level, idx))
    ensures Leaves(disk, blockSize, level, blk)[idx] == Follow(disk, blockSize, blk, Path(Usable(blockSize), level, idx))
    decreases level
  {
    var u := Usable(blockSize);
    PathIsExact(u, level, idx);
    if level > 0 {
      var p := Pow(u, level - 1);
      Descend(disk, blockSize, level, blk, idx);
      var path := Path(u, level, idx);
      assert path[1..] == Path(u, level - 1, idx % p);
      if Readable(disk, blk) {
        LeafIsPathEnd(disk, blockSize, level - 1, Word(disk[blk], idx / p), idx % p);
      }
    }
  }

  datatype Slot = Slot(level: nat, path: seq<nat>)

  /** The number of data blocks before the tree of `level`. */
  function Before(u: nat, level: nat): nat {
    if level <= 1 then 0 else Before(u, level - 1) + Pow(u, level - 1)
  }

  /** The tree and the path that hold a file-relative block index; `None` past the last tree. */
  function SlotOf(u: nat, level: nat, idx: nat): Option<Slot>
    requires u >= 1 && 1 <= level <= MAX_MAP_LEVELS + 1
    decreases MAX_MAP_LEVELS + 1 - level
  {
    if level > MAX_MAP_LEVELS then None
    else if idx < Pow(u, level) then Some(Slot(level, Path(u, level, idx)))
    else SlotOf(u, level + 1, idx - Pow(u, level))
  }

  /** The root of the tree of level `target`, reached through the chain pointers. */
  ghost function ChainRoot(disk: Disk, blockSize: nat, level: nat, blk: nat, target: nat): Option<nat>
    requires DiskOk(disk, blockSize) && level <= target
    decreases target - level
  {
    if level == target then Some(blk)
    else if !Readable(disk, blk) then None
    else ChainRoot(disk, blockSize, level + 1, Word(disk[blk], Usable(blockSize)), target)
  }

  predicate SlotOk(u: nat, level: nat, slot: Option<Slot>) {
    slot.Some? ==> level <= slot.value.level && ChildSlots(u, slot.value.path)
  }

  /** The data pointer a slot holds: along the chain to its tree, then down its path. */
  ghost function Fetch(disk: Disk, blockSize: nat, level: nat, blk: nat, slot: Option<Slot>): Option<nat>
    requires DiskOk(disk, blockSize) && SlotOk(Usable(blockSize), level, slot)
  {
    if slot.None? then None
    else
      var root := ChainRoot(disk, blockSize, level, blk, slot.value.level);
      if root.None? then None else Follow(disk, blockSize, root.value, slot.value.path)
  }

  lemma {:induction false} SlotIndex(u: nat, level: nat, idx: nat)
    requires u >= 1 && 1 <= level <= MAX_MAP_LEVELS + 1
    ensures SlotOf(u, level, idx).Some? ==>
              var slot := SlotOf(u, level, idx).value;
              && level <= slot.level <= MAX_MAP_LEVELS && |slot.path| == slot.level
              && ChildSlots(u, slot.path)
              && Before(u, slot.level) + LeafIndex(u, slot.path) == Before(u, level) + idx
    ensures SlotOf(u, level, idx).Some? <==> Before(u, level) + idx < Before(u, MAX_MAP_LEVELS + 1)
    decreases MAX_MAP_LEVELS + 1 - level
  {
    if level <= MAX_MAP_LEVELS {
      if idx < Pow(u, level) {
        PathIsExact(u, level, idx);
        BeforeGrows(u, level + 1, MAX_MAP_LEVELS + 1);
      } else {
        SlotIndex(u, level + 1, idx - Pow(u, level));
      }
    }
  }

  lemma {:induction false} BeforeGrows(u: nat, a: nat, b: nat)
    requires 1 <= a <= b
    ensures Before(u, a) <= Before(u, b)
    decreases b - a
  {
    if a < b { BeforeGrows(u, a + 1, b); }
  }

  /** Distinct block indices are held by distinct slots. */
  lemma {:induction false} DistinctSlots(u: nat, i: nat, j: nat)
    requires u >= 1 && SlotOf(u, 1, i).Some? && SlotOf(u, 1, i) == SlotOf(u, 1, j)
    ensures i == j
  {
    SlotIndex(u, 1, i);
    SlotIndex(u, 1, j);
  }

  /** Enumeration and slots agree: the `idx`-th leaf of the chain is the word at its slot. */
  lemma {:induction false} EnumerationIsSlots(disk: Disk, blockSize: nat, level: nat, blk: nat, idx: nat)
    requires DiskOk(disk, blockSize) && 1 <= level <= MAX_MAP_LEVELS
    ensures SlotOk(Usable(blockSize), level, SlotOf(Usable(blockSize), level, idx))
    ensures At(Chain(disk, blockSize, level, blk), idx) ==
            Fetch(disk, blockSize, level, blk, SlotOf(Usable(blockSize), level, idx))
    decreases MAX_MAP_LEVELS - level
  {
    hide Leaves;
    hide Pow;
    hide Path;
    hide Follow;
    hide ChildSlots;
    hide Word;
    hide LeafIndex;
    hide Before;
    hide Chain;
    hide SlotOf;
    var u := Usable(blockSize);
    SlotIndex(u, level, idx);
    ChainStep(disk, blockSize, level, blk, idx);
    SlotStep(u, level, idx);
    var p := Pow(u, level);
    if idx < p {
      LeafIsPathEnd(disk, blockSize, level, blk, idx);
    } else if level < MAX_MAP_LEVELS {
      SlotIndex(u, level + 1, idx - p);
      if Readable(disk, blk) {
        EnumerationIsSlots(disk, blockSize, level + 1, Word(disk[blk], u), idx - p);
      }
    }
  }

  lemma {:induction false} SlotStep(u: nat, level: nat, idx: nat)
    requires u >= 1 && 1 <= level <= MAX_MAP_LEVELS
    ensures SlotOf(u, level, idx) ==
            if idx < Pow(u, level) then Some(Slot(level, Path(u, level, idx)))
            else if level == MAX_MAP_LEVELS then None
            else SlotOf(u, level + 1, idx - Pow(u, level))
  {
  }

  /** One step along the chain. */
  lemma {:induction false} ChainStep(disk: Disk, blockSize: nat, level: nat, blk: nat, idx: nat)
    requires DiskOk(disk, blockSize) && 1 <= level <= MAX_MAP_LEVELS
    ensures At(Chain(disk, blockSize, level, blk), idx) ==
            var p := Pow(Usable(blockSize), level);
            if idx < p then Leaves(disk, blockSize, level, blk)[idx]
            else if level == MAX_MAP_LEVELS || !Readable(disk, blk) then None
            else At(Chain(disk, blockSize, level + 1, Word(disk[blk], Usable(blockSize))), idx - p)
  {
    hide Leaves;
    hide Pow;
    hide Word;
  }
}
