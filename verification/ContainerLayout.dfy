/** The container format as it is documented (internal/ctfs/container.go:62-76, 236-266, 312-318, 402-463):
    what the bytes of a container hold, whatever blocks they use for it, stated in the direction a
    writer goes. Reading such a container gives back every file. */
module ContainerLayout {
  import opened Wrappers
  import opened Arithmetic
  import opened Bytes
  import opened Base40Spec
  import opened MappingSpec
  import opened ContainerSpec
  import Mapping

  // ---- mapping blocks ----------------------------------------------------------------

  /** Word `slot` of block `blk` is `w`, little-endian. */
  predicate PointsTo(disk: Disk, blk: nat, slot: nat, w: nat) {
    && blk < |disk| && 8 * slot + 8 <= |disk[blk]|
    && w <= MAX_UINT64 && disk[blk][8 * slot..8 * slot + 8] == LittleEndian(w, 8)
  }

  /** At most `n` of the blocks, from the `from`-th on. */
  function Part(blocks: seq<nat>, from: nat, n: nat): seq<nat>
    requires from <= |blocks|
  {
    if from + n <= |blocks| then blocks[from..from + n] else blocks[from..]
  }

  /** The tree of `level` at `blk` names the data blocks `blocks`, from left to right: a mapping block of
      level 1 names them itself, and each child of a higher one names the next `u^(level-1)`. */
  ghost predicate TreeHolds(disk: Disk, u: nat, level: nat, blk: nat, blocks: seq<nat>)
    decreases level, 0
  {
    if level == 0 then blocks == [blk]
    else
      && 0 < blk < |disk| && |blocks| <= Pow(u, level)
      && forall slot: nat :: slot * Pow(u, level - 1) < |blocks| ==> ChildHolds(disk, u, level, blk, blocks, slot)
  }

  ghost predicate ChildHolds(disk: Disk, u: nat, level: nat, blk: nat, blocks: seq<nat>, slot: nat)
    requires level > 0 && slot * Pow(u, level - 1) < |blocks|
    decreases level - 1, 1
  {
    var p := Pow(u, level - 1);
    exists child: nat :: PointsTo(disk, blk, slot, child) && TreeHolds(disk, u, level - 1, child, Part(blocks, slot * p, p))
  }

  /** The trees of a file: the first has level 1; when it is full, the word after its last child names
      one of level 2, which goes on with the blocks after those, and so on up to level 5. */
  ghost predicate ChainHolds(disk: Disk, u: nat, level: nat, blk: nat, blocks: seq<nat>)
    requires level <= 5
    decreases 5 - level
  {
    var p := Pow(u, level);
    if |blocks| <= p then TreeHolds(disk, u, level, blk, blocks)
    else
      && level < 5 && TreeHolds(disk, u, level, blk, blocks[..p])
      && exists next: nat :: PointsTo(disk, blk, u, next) && ChainHolds(disk, u, level + 1, next, blocks[p..])
  }

  /** The file at mapping block `root` is `bytes`, in the data blocks `blocks`. */
  ghost predicate FileHolds(disk: Disk, blockSize: nat, root: nat, bytes: seq<byte>, blocks: seq<nat>)
    requires blockSize >= 8
  {
    && (bytes != [] ==> ChainHolds(disk, blockSize / 8 - 1, 1, root, blocks))
    && (|blocks| - 1) * blockSize < |bytes| <= |blocks| * blockSize
    && (forall i :: 0 <= i < |blocks| ==> 0 < blocks[i] < |disk|)
    && (forall i, j :: 0 <= i < |blocks| && 0 <= j < |disk[blocks[i]]| && i * blockSize + j < |bytes| ==>
          disk[blocks[i]][j] == bytes[i * blockSize + j])
  }

  // ---- reading them --------------------------------------------------------------------

  lemma {:induction false} WordRead(disk: Disk, blk: nat, slot: nat, w: nat)
    requires PointsTo(disk, blk, slot, w)
    ensures Word(disk[blk], slot) == w
  {
    Widths();
    LittleEndianRoundTrip(w, 8);
  }

  lemma {:induction false} TreeRead(disk: Disk, blockSize: nat, level: nat, blk: nat, blocks: seq<nat>, i: nat)
    requires DiskOk(disk, blockSize) && TreeHolds(disk, Usable(blockSize), level, blk, blocks)
    requires i < |blocks| && 0 < blocks[i] < |disk|
    ensures |blocks| <= Pow(Usable(blockSize), level)
    ensures Leaves(disk, blockSize, level, blk)[i] == Some(blocks[i])
    decreases level
  {
    hide Leaves;
    hide Word;
    var u := Usable(blockSize);
    if level == 0 {
      LeafRead(disk, blockSize, blk);
    } else {
      var p := Pow(u, level - 1);
      hide Pow;
      Descend(disk, blockSize, level, blk, i);
      var slot := i / p;
      assert slot * p + i % p == i;
      assert ChildHolds(disk, u, level, blk, blocks, slot);
      var child: nat :| PointsTo(disk, blk, slot, child) && TreeHolds(disk, u, level - 1, child, Part(blocks, slot * p, p));
      WordRead(disk, blk, slot, child);
      var part := Part(blocks, slot * p, p);
      assert part[i % p] == blocks[i];
      TreeRead(disk, blockSize, level - 1, child, part, i % p);
    }
  }

  lemma {:induction false} LeafRead(disk: Disk, blockSize: nat, blk: nat)
    requires DiskOk(disk, blockSize)
    ensures Pow(Usable(blockSize), 0) == 1
    ensures 0 < blk < |disk| ==> Leaves(disk, blockSize, 0, blk) == [Some(blk)]
  {}

  lemma {:induction false} ChainRead(disk: Disk, blockSize: nat, level: nat, blk: nat, blocks: seq<nat>, i: nat)
    requires DiskOk(disk, blockSize) && 1 <= level <= 5 && ChainHolds(disk, Usable(blockSize), level, blk, blocks)
    requires i < |blocks| && forall k :: 0 <= k < |blocks| ==> 0 < blocks[k] < |disk|
    ensures At(Chain(disk, blockSize, level, blk), i) == Some(blocks[i])
    decreases 5 - level
  {
    hide Leaves;
    hide Word;
    hide Chain;
    hide Pow;
    hide TreeHolds;
    var u := Usable(blockSize);
    var p := Pow(u, level);
    ChainStep(disk, blockSize, level, blk, i);
    if |blocks| <= p {
      TreeRead(disk, blockSize, level, blk, blocks, i);
    } else if i < p {
      TreeRead(disk, blockSize, level, blk, blocks[..p], i);
    } else {
      var next: nat :| PointsTo(disk, blk, u, next) && ChainHolds(disk, u, level + 1, next, blocks[p..]);
      RootReadable(disk, u, level, blk, blocks[..p]);
      WordRead(disk, blk, u, next);
      ChainRead(disk, blockSize, level + 1, next, blocks[p..], i - p);
    }
  }

  lemma {:induction false} RootReadable(disk: Disk, u: nat, level: nat, blk: nat, blocks: seq<nat>)
    requires level > 0 && TreeHolds(disk, u, level, blk, blocks)
    ensures Readable(disk, blk)
  {}

  lemma {:induction false} ContentsAt(disk: Disk, blockSize: nat, blocks: seq<nat>, i: nat, j: nat)
    requires DiskOk(disk, blockSize) && forall k :: 0 <= k < |blocks| ==> blocks[k] < |disk|
    requires i < |blocks| && j < blockSize
    ensures i * blockSize + j < |blocks| * blockSize
    ensures Mapping.Contents(disk, blockSize, blocks)[i * blockSize + j] == disk[blocks[i]][j]
    decreases |blocks|
  {
    MulLe(i + 1, |blocks|, blockSize);
    Distribute(i, 1, blockSize);
    var last := |blocks| - 1;
    Distribute(last, 1, blockSize);
    if i < last {
      ContentsAt(disk, blockSize, blocks[..last], i, j);
    }
  }

  /** A file that the container holds is read back. */
  lemma {:induction false} FileRead(disk: Disk, blockSize: nat, root: nat, bytes: seq<byte>, blocks: seq<nat>)
    requires DiskOk(disk, blockSize) && |bytes| < INT_LIMIT && FileHolds(disk, blockSize, root, bytes, blocks)
    ensures Mapping.EntryContent(disk, blockSize, |bytes|, root) == Some(bytes)
  {
    if bytes != [] {
      hide Chain;
      hide ChainHolds;
      var n := Mapping.BlockCount(|bytes|, blockSize);
      BlocksNeeded(|bytes|, |blocks|, blockSize);
      var chain := Chain(disk, blockSize, 1, root);
      forall i: nat | i < n ensures At(chain, i) == Some(blocks[i]) {
        ChainRead(disk, blockSize, 1, root, blocks, i);
      }
      Mapping.ListedExactly(chain, n);
      var list := Mapping.DataBlockList(chain, n).value;
      assert list == blocks;
      SameContents(disk, blockSize, bytes, blocks);
    }
  }

  lemma {:induction false} BlocksNeeded(size: nat, n: nat, blockSize: nat)
    requires blockSize > 0 && size > 0 && (n - 1) * blockSize < size <= n * blockSize
    ensures Mapping.BlockCount(size, blockSize) == n
  {
    Distribute(n, -1, blockSize);
    DivModUnique(size + blockSize - 1, n, size - 1 - (n - 1) * blockSize, blockSize);
  }

  lemma {:induction false} SameContents(disk: Disk, blockSize: nat, bytes: seq<byte>, blocks: seq<nat>)
    requires DiskOk(disk, blockSize) && |bytes| <= |blocks| * blockSize
    requires forall i :: 0 <= i < |blocks| ==> 0 < blocks[i] < |disk|
    requires forall i, j :: 0 <= i < |blocks| && 0 <= j < |disk[blocks[i]]| && i * blockSize + j < |bytes| ==>
               disk[blocks[i]][j] == bytes[i * blockSize + j]
    ensures Mapping.Contents(disk, blockSize, blocks)[..|bytes|] == bytes
  {
    hide Mapping.Contents;
    var all := Mapping.Contents(disk, blockSize, blocks);
    forall k | 0 <= k < |bytes| ensures all[k] == bytes[k] {
      var i, j := k / blockSize, k % blockSize;
      assert k == i * blockSize + j;
      if i >= |blocks| { MulLe(|blocks|, i, blockSize); }
      ContentsAt(disk, blockSize, blocks, i, j);
      assert disk[blocks[i]][j] == bytes[i * blockSize + j];
    }
  }

  // ---- block 0 -----------------------------------------------------------------------------

  /** An internal file: its name and bytes, the mapping block it starts from and the data blocks. */
  datatype Placed = Placed(name: seq<byte>, bytes: seq<byte>, root: nat, blocks: seq<nat>)

  /** The block is zero from `from` to `to`. */
  predicate Zeroed(block: seq<byte>, from: nat, to: nat) {
    to <= |block| && forall k :: from <= k < to ==> block[k] == 0
  }

  /** The sixteen bytes of the header: magic, a version, no encryption, shards, block size, entries. */
  predicate HeaderHolds(block0: seq<byte>, shards: byte, blockSize: nat, maxRootEntries: nat) {
    && |block0| >= 16
    && block0[0] == 0xc0 && block0[1] == 0xde && block0[2] == 0x72 && block0[3] == 0xac && block0[4] == 0xe2
    && block0[6] == 0 && block0[7] == shards
    && block0[8..12] == LittleEndian(blockSize, 4) && block0[12..16] == LittleEndian(maxRootEntries, 4)
  }

  /** An entry is twenty-four bytes: size, mapping block, name. */
  predicate EntryHolds(block0: seq<byte>, at: nat, p: Placed)
    requires ValidName(p.name)
  {
    && at + 24 <= |block0| && |p.bytes| <= MAX_UINT64 && p.root <= MAX_UINT64
    && block0[at..at + 8] == LittleEndian(|p.bytes|, 8)
    && block0[at + 8..at + 16] == LittleEndian(p.root, 8)
    && block0[at + 16..at + 24] == LittleEndian(Value(p.name), 8)
  }

  /** The free-list roots of a container: for each shard, eight of six bytes. */
  function FreeLists(shards: byte): nat { shards * 8 * 6 }

  /** Where writers put the entry array: after the header, and in a sharded container after the roots. */
  function EntryArray(shards: byte): nat { if shards <= 1 then 16 else 16 + FreeLists(shards) }

  /** As many entries as the header says, or as there is room for if it does not say. */
  predicate SlotCount(count: nat, blockSize: nat, base: nat, maxRootEntries: nat) {
    && base + 24 * count <= blockSize
    && (if maxRootEntries == 0 then blockSize < base + 24 * (count + 1) else count == maxRootEntries)
  }

  /** Slot `k` of the entry array is empty, or an entry for a file the container holds. */
  ghost predicate SlotHolds(disk: Disk, blockSize: nat, at: nat, slot: Option<Placed>)
    requires blockSize >= 8 && |disk| > 0
  {
    match slot
    case None => Zeroed(disk[0], at, at + 24)
    case Some(p) =>
      && ValidName(p.name) && |p.bytes| < INT_LIMIT && p.root < |disk|
      && EntryHolds(disk[0], at, p) && FileHolds(disk, blockSize, p.root, p.bytes, p.blocks)
  }

  /** No slot before `k` has the name of slot `k`. */
  predicate FirstOfName(slots: seq<Option<Placed>>, k: nat)
    requires k < |slots| && slots[k].Some?
  {
    forall j :: 0 <= j < k && slots[j].Some? ==> slots[j].value.name != slots[k].value.name
  }

  predicate DistinctNames(slots: seq<Option<Placed>>) {
    forall i, j :: 0 <= i < j < |slots| && slots[i].Some? && slots[j].Some? ==> slots[i].value.name != slots[j].value.name
  }

  /** The entry array at `base` of a container. */
  ghost predicate SlotsHold(disk: Disk, blockSize: nat, base: nat, maxRootEntries: nat, slots: seq<Option<Placed>>) {
    && DiskOk(disk, blockSize) && |disk| > 0
    && SlotCount(|slots|, blockSize, base, maxRootEntries)
    && (forall k :: 0 <= k < |slots| ==> SlotHolds(disk, blockSize, base + 24 * k, slots[k]))
  }

  predicate SomeUsed(slots: seq<Option<Placed>>) { exists k :: 0 <= k < |slots| && slots[k].Some? }

  /** The blocks of a container with these slots in the entry array at `base`. */
  ghost predicate LaidOut(disk: Disk, blockSize: nat, shards: byte, base: nat, maxRootEntries: nat, slots: seq<Option<Placed>>) {
    && SlotsHold(disk, blockSize, base, maxRootEntries, slots) && SomeUsed(slots)
    && maxRootEntries <= MAX_UINT32 && HeaderHolds(disk[0], shards, blockSize, maxRootEntries)
  }

  /** The blocks one after the other. */
  function Join(disk: Disk): seq<byte> { if disk == [] then [] else disk[0] + Join(disk[1..]) }

  lemma {:induction false} JoinAt(disk: Disk, blockSize: nat, i: nat, tail: seq<byte>)
    requires (forall k :: 0 <= k < |disk| ==> |disk[k]| == blockSize) && i < |disk|
    ensures |Join(disk)| == |disk| * blockSize && i * blockSize + blockSize <= |disk| * blockSize
    ensures (Join(disk) + tail)[i * blockSize..i * blockSize + blockSize] == disk[i]
    decreases |disk|
  {
    var rest := disk[1..];
    Distribute(|rest|, 1, blockSize);
    MulLe(i + 1, |disk|, blockSize);
    Distribute(i, 1, blockSize);
    if rest == [] {
      assert Join(rest) == [];
    } else {
      JoinAt(rest, blockSize, if i == 0 then 0 else i - 1, tail);
    }
    assert Join(disk) + tail == disk[0] + (Join(rest) + tail);
    if i > 0 {
      Distribute(i - 1, 1, blockSize);
      var from := (i - 1) * blockSize;
      assert (disk[0] + (Join(rest) + tail))[blockSize + from..blockSize + from + blockSize] ==
             (Join(rest) + tail)[from..from + blockSize];
    }
  }

  /** A file of whole blocks and a shorter tail is taken apart into those blocks. */
  lemma {:induction false} BlocksOfJoin(disk: Disk, blockSize: nat, tail: seq<byte>)
    requires blockSize > 0 && (forall k :: 0 <= k < |disk| ==> |disk[k]| == blockSize) && |tail| < blockSize && |disk| > 0
    ensures var file := Join(disk) + tail;
            && Mapping.Blocks(file, blockSize) == disk && |file| / blockSize == |disk| && |file| % blockSize == |tail|
            && file[..blockSize] == disk[0]
  {
    var file := Join(disk) + tail;
    JoinAt(disk, blockSize, 0, tail);
    DivModUnique(|file|, |disk|, |tail|, blockSize);
    forall i | 0 <= i < |disk| ensures Mapping.BlockAt(file, blockSize, i) == disk[i] {
      JoinAt(disk, blockSize, i, tail);
    }
  }

  // ---- opening it ------------------------------------------------------------------------------

  lemma {:induction false} WordAt(block: seq<byte>, at: nat, w: nat)
    requires at + 8 <= |block| && w <= MAX_UINT64 && block[at..at + 8] == LittleEndian(w, 8)
    ensures Word64At(block, at) == w
  {
    Widths();
    LittleEndianRoundTrip(w, 8);
  }

  lemma {:induction false} ZeroWord(block: seq<byte>, at: nat)
    requires at + 8 <= |block| && forall k :: at <= k < at + 8 ==> block[k] == 0
    ensures Word64At(block, at) == 0
  {
    ZeroBytes(8);
    assert block[at..at + 8] == LittleEndian(0, 8);
    WordAt(block, at, 0);
  }

  lemma {:induction false} ZeroBytes(width: nat)
    ensures forall k :: 0 <= k < width ==> LittleEndian(0, width)[k] == 0
    decreases width
  {
    if width > 0 { ZeroBytes(width - 1); }
  }

  /** What the reader makes of a slot. */
  lemma {:induction false} SlotRead(disk: Disk, blockSize: nat, base: nat, k: nat, slot: Option<Placed>)
    requires DiskOk(disk, blockSize) && |disk| > 0 && SlotHolds(disk, blockSize, base + 24 * k, slot)
    ensures base + (k + 1) * ENTRY_SIZE <= |disk[0]|
    ensures var e := EntryAt(disk[0], base, k);
            && EntryOk(e, |disk|)
            && (slot.None? <==> Unused(e)) && (slot.None? ==> e.name == 0)
            && (slot.Some? ==> e == Entry(|slot.value.bytes|, slot.value.root, Value(slot.value.name)) && e.name > 0)
  {
    hide FileHolds;
    hide Word64At;
    var block, at := disk[0], base + 24 * k;
    match slot
    case None =>
      ZeroWord(block, at);
      ZeroWord(block, at + 8);
      ZeroWord(block, at + 16);
    case Some(p) =>
      EncodingIsInjective(p.name, p.name);
      WordAt(block, at, |p.bytes|);
      WordAt(block, at + 8, p.root);
      WordAt(block, at + 16, Value(p.name));
      AcceptedExactlyIfEncoding(Value(p.name));
  }

  /** The reader takes an entry array for one exactly if it has an entry. */
  lemma {:induction false} SlotsRead(disk: Disk, blockSize: nat, base: nat, maxRootEntries: nat, slots: seq<Option<Placed>>)
    requires SlotsHold(disk, blockSize, base, maxRootEntries, slots)
    ensures EntryCount(blockSize, base, maxRootEntries) == |slots|
    ensures CandidateOk(disk[0], base, maxRootEntries, |disk|) <==> SomeUsed(slots)
  {
    hide EntryAt;
    hide SlotHolds;
    hide Unused;
    hide EntryOk;
    if maxRootEntries == 0 { DivModUnique(blockSize - base, |slots|, blockSize - base - |slots| * ENTRY_SIZE, ENTRY_SIZE); }
    forall i: nat | i < |slots|
      ensures EntryOk(EntryAt(disk[0], base, i), |disk|) && (slots[i].None? <==> Unused(EntryAt(disk[0], base, i)))
    {
      SlotRead(disk, blockSize, base, i, slots[i]);
    }
    if SomeUsed(slots) {
      var k :| 0 <= k < |slots| && slots[k].Some?;
      assert !Unused(EntryAt(disk[0], base, k));
    }
  }

  lemma {:induction false} HeaderRead(file: seq<byte>, block0: seq<byte>, shards: byte, blockSize: nat, maxRootEntries: nat)
    requires HeaderHolds(block0, shards, blockSize, maxRootEntries) && block0 <= file
    requires blockSize <= MAX_UINT32 && maxRootEntries <= MAX_UINT32
    ensures |file| >= HEADER_SIZE && HasMagic(file) && file[6] == 0 && file[7] == shards
    ensures Word32At(file, 8) == blockSize && Word32At(file, 12) == maxRootEntries
  {
    Widths();
    LittleEndianRoundTrip(blockSize, 4);
    LittleEndianRoundTrip(maxRootEntries, 4);
    assert file[8..12] == block0[8..12] && file[12..16] == block0[12..16];
    assert file[..5] == [block0[0], block0[1], block0[2], block0[3], block0[4]];
  }

  /** Which entry array the reader settles on. */
  lemma {:induction false} Opens(disk: Disk, tail: seq<byte>, blockSize: nat, shards: byte, base: nat,
                                 maxRootEntries: nat, slots: seq<Option<Placed>>)
    requires LaidOut(disk, blockSize, shards, base, maxRootEntries, slots) && |tail| < blockSize
    requires Locate(disk[0], Candidates(shards), maxRootEntries, |disk|) == Some(base)
    ensures Opened(Join(disk) + tail) == Ok(Container(blockSize, |disk|, |tail|, base, |slots|, disk[0]))
  {
    hide SlotHolds;
    hide EntryCount;
    hide Locate;
    var file := Join(disk) + tail;
    BlocksOfJoin(disk, blockSize, tail);
    SlotsRead(disk, blockSize, base, maxRootEntries, slots);
    assert disk[0] <= file;
    HeaderRead(file, disk[0], shards, blockSize, maxRootEntries);
  }

  /** The reader's entry at slot `k` carries a name word exactly if the slot holds that file. */
  lemma {:induction false} SlotName(disk: Disk, blockSize: nat, base: nat, k: nat, slot: Option<Placed>, name: seq<byte>)
    requires DiskOk(disk, blockSize) && |disk| > 0 && SlotHolds(disk, blockSize, base + 24 * k, slot) && ValidName(name)
    ensures base + (k + 1) * ENTRY_SIZE <= |disk[0]|
    ensures EntryAt(disk[0], base, k).name == Value(name) <==> slot.Some? && slot.value.name == name
    ensures slot.Some? && slot.value.name == name ==>
              EntryAt(disk[0], base, k) == Entry(|slot.value.bytes|, slot.value.root, Value(name))
  {
    hide EntryAt;
    hide FileHolds;
    SlotRead(disk, blockSize, base, k, slot);
    AcceptedExactlyIfEncoding(Value(name));
    EncodingIsInjective(name, name);
    if slot.Some? { EncodingIsInjective(name, slot.value.name); }
  }

  ghost predicate OpenedAt(c: Container, disk: Disk, base: nat, slots: seq<Option<Placed>>) {
    |disk| > 0 && ContainerOk(c) && c.block0 == disk[0] && c.entryBase == base && c.entryCount == |slots|
  }

  lemma {:induction false} FindsSlot(disk: Disk, blockSize: nat, base: nat, maxRootEntries: nat, slots: seq<Option<Placed>>,
                                     c: Container, k: nat, from: nat)
    requires SlotsHold(disk, blockSize, base, maxRootEntries, slots) && OpenedAt(c, disk, base, slots)
    requires from <= k < |slots| && slots[k].Some? && ValidName(slots[k].value.name) && FirstOfName(slots, k)
    ensures var p := slots[k].value;
            FindEntry(c, Value(p.name), from) == Some(Entry(|p.bytes|, p.root, Value(p.name)))
    decreases k - from
  {
    hide EntryAt;
    hide SlotHolds;
    SlotName(disk, blockSize, base, from, slots[from], slots[k].value.name);
    if from < k { FindsSlot(disk, blockSize, base, maxRootEntries, slots, c, k, from + 1); }
  }

  lemma {:induction false} FindsNothing(disk: Disk, blockSize: nat, base: nat, maxRootEntries: nat, slots: seq<Option<Placed>>,
                                        c: Container, name: seq<byte>, from: nat)
    requires SlotsHold(disk, blockSize, base, maxRootEntries, slots) && OpenedAt(c, disk, base, slots)
    requires from <= |slots| && ValidName(name)
    requires forall k :: 0 <= k < |slots| && slots[k].Some? ==> slots[k].value.name != name
    ensures FindEntry(c, Value(name), from).None?
    decreases |slots| - from
  {
    hide EntryAt;
    hide SlotHolds;
    if from < |slots| {
      SlotName(disk, blockSize, base, from, slots[from], name);
      FindsNothing(disk, blockSize, base, maxRootEntries, slots, c, name, from + 1);
    }
  }

  /** Once the reader has settled on an entry array, it reads back every file of it and finds no other. */
  lemma {:induction false} SlotsAreRead(disk: Disk, tail: seq<byte>, blockSize: nat, shards: byte, base: nat, maxRootEntries: nat,
                                        slots: seq<Option<Placed>>, name: seq<byte>)
    requires LaidOut(disk, blockSize, shards, base, maxRootEntries, slots) && |tail| < blockSize
    requires Locate(disk[0], Candidates(shards), maxRootEntries, |disk|) == Some(base)
    ensures ReadsBack(Join(disk) + tail, slots, name)
  {
    hide Opened;
    hide FindEntry;
    hide Mapping.Blocks;
    hide FileHolds;
    var file := Join(disk) + tail;
    Opens(disk, tail, blockSize, shards, base, maxRootEntries, slots);
    hide Locate;
    BlocksOfJoin(disk, blockSize, tail);
    var c := Opened(file).value;
    if ValidName(name) {
      if forall k :: 0 <= k < |slots| && slots[k].Some? ==> slots[k].value.name != name {
        FindsNothing(disk, blockSize, base, maxRootEntries, slots, c, name, 0);
      }
      forall k | 0 <= k < |slots| && slots[k].Some? && slots[k].value.name == name && FirstOfName(slots, k)
        ensures FileBytes(file, c, name) == Some(slots[k].value.bytes)
      {
        var p := slots[k].value;
        assert SlotHolds(disk, blockSize, base + 24 * k, slots[k]);
        FindsSlot(disk, blockSize, base, maxRootEntries, slots, c, k, 0);
        FileRead(disk, blockSize, p.root, p.bytes, p.blocks);
      }
    } else {
      forall k | 0 <= k < |slots| && slots[k].Some? ensures slots[k].value.name != name {
        assert SlotHolds(disk, blockSize, base + 24 * k, slots[k]);
      }
    }
  }

  /** The file opens as a container, and under `name` it has the bytes of the first slot of that name, or
      nothing. */
  ghost predicate ReadsBack(file: seq<byte>, slots: seq<Option<Placed>>, name: seq<byte>) {
    && Opened(file).Ok? && ContainerOk(Opened(file).value)
    && var found := FileBytes(file, Opened(file).value, name);
       && (forall k :: 0 <= k < |slots| && slots[k].Some? && slots[k].value.name == name && FirstOfName(slots, k) ==>
             found == Some(slots[k].value.bytes))
       && ((forall k :: 0 <= k < |slots| && slots[k].Some? ==> slots[k].value.name != name) ==> found.None?)
  }

  /** Reader undoes writer: every container laid out with its entry array where writers put it opens,
      whatever blocks it uses and whatever tail it has; each of its files is read back byte for byte, the
      first one if two have the same name, and no other name is found. */
  lemma {:induction false} LaidOutIsRead(disk: Disk, tail: seq<byte>, blockSize: nat, shards: byte, maxRootEntries: nat,
                                         slots: seq<Option<Placed>>, name: seq<byte>)
    requires LaidOut(disk, blockSize, shards, EntryArray(shards), maxRootEntries, slots) && |tail| < blockSize
    ensures ReadsBack(Join(disk) + tail, slots, name)
  {
    hide CandidateOk;
    hide ReadsBack;
    hide SlotHolds;
    SlotsRead(disk, blockSize, EntryArray(shards), maxRootEntries, slots);
    SlotsAreRead(disk, tail, blockSize, shards, EntryArray(shards), maxRootEntries, slots, name);
  }

  // ---- an entry array after empty free lists ------------------------------------------------------

  /** The first `n` slots have no entry. */
  predicate NoneUsed(slots: seq<Option<Placed>>, n: nat) { forall k :: 0 <= k < |slots| && k < n ==> slots[k].None? }

  /** What the reader sees of an array that starts two entries later than it thinks. */
  function Shifted(slots: seq<Option<Placed>>, count: nat): seq<Option<Placed>>
    requires count <= |slots| + 2
  {
    ([None, None] + slots)[..count]
  }

  lemma {:induction false} ShiftedHold(disk: Disk, blockSize: nat, maxRootEntries: nat, slots: seq<Option<Placed>>)
    requires SlotsHold(disk, blockSize, 64, maxRootEntries, slots) && Zeroed(disk[0], 16, 64)
    ensures var seen := Shifted(slots, if maxRootEntries == 0 then |slots| + 2 else maxRootEntries);
            SlotsHold(disk, blockSize, 16, maxRootEntries, seen)
  {
    hide FileHolds;
    hide EntryHolds;
    var count := if maxRootEntries == 0 then |slots| + 2 else maxRootEntries;
    var seen := Shifted(slots, count);
    forall k | 0 <= k < |seen| ensures SlotHolds(disk, blockSize, 16 + 24 * k, seen[k]) {
      if k >= 2 { assert seen[k] == slots[k - 2] && SlotHolds(disk, blockSize, 64 + 24 * (k - 2), slots[k - 2]); }
    }
  }

  /** With one shard and all of its free lists empty, an entry array after them is taken to start at the
      lists themselves, two entries early. A file in slot `k` is then found if and only if that does not
      push it out of the declared number of entries, or nothing else is in those. */
  lemma {:induction false} AfterEmptyFreeLists(disk: Disk, tail: seq<byte>, blockSize: nat, maxRootEntries: nat,
                                               slots: seq<Option<Placed>>, k: nat)
    requires LaidOut(disk, blockSize, 1, 16 + FreeLists(1), maxRootEntries, slots) && |tail| < blockSize
    requires Zeroed(disk[0], 16, 16 + FreeLists(1)) && k < |slots| && slots[k].Some? && DistinctNames(slots)
    ensures var file, p := Join(disk) + tail, slots[k].value;
            && Opened(file).Ok? && ContainerOk(Opened(file).value)
            && FileBytes(file, Opened(file).value, p.name) ==
               if maxRootEntries == 0 || k + 2 < maxRootEntries || NoneUsed(slots, maxRootEntries - Min(maxRootEntries, 2))
               then Some(p.bytes) else None
  {
    hide CandidateOk;
    hide SlotHolds;
    hide Opened;
    hide FileBytes;
    ShiftedHold(disk, blockSize, maxRootEntries, slots);
    var count := if maxRootEntries == 0 then |slots| + 2 else maxRootEntries;
    var seen := Shifted(slots, count);
    SlotsRead(disk, blockSize, 16, maxRootEntries, seen);
    SlotsRead(disk, blockSize, 64, maxRootEntries, slots);
    assert Candidates(1) == [16, 64] && Candidates(1)[1..] == [64];
    var name := slots[k].value.name;
    if SomeUsed(seen) {
      SlotsAreRead(disk, tail, blockSize, 1, 16, maxRootEntries, seen, name);
      var j :| 0 <= j < |seen| && seen[j].Some?;
      assert seen[j] == slots[j - 2];
      if k + 2 < count {
        assert seen[k + 2] == slots[k];
      } else {
        forall i | 0 <= i < |seen| && seen[i].Some? ensures seen[i].value.name != name { assert seen[i] == slots[i - 2]; }
      }
    } else {
      SlotsAreRead(disk, tail, blockSize, 1, 64, maxRootEntries, slots, name);
      forall i | 0 <= i < |slots| && i + 2 < count ensures slots[i].None? { assert seen[i + 2] == slots[i]; }
    }
  }
}
