/** A writer of containers: one file after the other, each file's mapping blocks and data blocks one after
    the other, in the layout that internal/ctfs/container.go:402-463 says the producer uses. What it
    writes is read back (internal/ctfs/container_write_test.go:53-90). */
module ContainerWriter {
  import opened Wrappers
  import opened Arithmetic
  import opened Bytes
  import opened Base40Spec
  import opened MappingSpec
  import opened ContainerSpec
  import opened ContainerLayout
  import Mapping

  // ---- mapping blocks ---------------------------------------------------------------------

  function Words(ws: seq<nat>): (s: seq<byte>)
    ensures |s| == 8 * |ws|
  {
    if ws == [] then [] else LittleEndian(ws[0], 8) + Words(ws[1..])
  }

  function Zeros(n: nat): (s: seq<nat>)
    ensures |s| == n && forall k :: 0 <= k < n ==> s[k] == 0
  {
    seq(n, _ => 0)
  }

  /** Child pointers, nothing in the slots left over, and the chain pointer. */
  function MapBlock(u: nat, children: seq<nat>, chain: nat): (s: seq<byte>)
    requires |children| <= u
    ensures |s| == 8 * (u + 1)
  {
    Words(children + Zeros(u - |children|) + [chain])
  }

  lemma {:induction false} WordsAt(ws: seq<nat>, k: nat)
    requires k < |ws|
    ensures Words(ws)[8 * k..8 * k + 8] == LittleEndian(ws[k], 8)
    decreases |ws|
  {
    if k > 0 {
      WordsAt(ws[1..], k - 1);
      var rest := Words(ws[1..]);
      assert Words(ws)[8 * k..8 * k + 8] == rest[8 * (k - 1)..8 * (k - 1) + 8];
    }
  }

  /** How many blocks a tree of `level` over `n` data blocks takes. */
  function TreeSize(u: nat, level: nat, n: nat): (size: nat)
    requires u >= 1
    ensures size >= 1
    decreases level, 0
  {
    if level == 0 then 1 else 1 + TreesSize(u, level - 1, n)
  }

  /** The same for as many trees of `level` as `n` data blocks need. */
  function TreesSize(u: nat, level: nat, n: nat): nat
    requires u >= 1
    decreases level, n + 1
  {
    if n == 0 then 0
    else
      var m := Min(Pow(u, level), n);
      TreeSize(u, level, m) + TreesSize(u, level, n - m)
  }

  /** Where those trees start. */
  function Roots(u: nat, level: nat, n: nat, at: nat): (r: seq<nat>)
    requires u >= 1
    decreases n
  {
    if n == 0 then []
    else
      var m := Min(Pow(u, level), n);
      [at] + Roots(u, level, n - m, at + TreeSize(u, level, m))
  }

  lemma {:induction false} RootsCount(u: nat, level: nat, n: nat, at: nat, k: nat)
    requires u >= 1 && n <= k * Pow(u, level)
    ensures |Roots(u, level, n, at)| <= k
    decreases n
  {
    if n > 0 {
      var p := Pow(u, level);
      var m := Min(p, n);
      Distribute(k, -1, p);
      if n > p {
        RootsCount(u, level, n - m, at + TreeSize(u, level, m), k - 1);
      } else {
        assert Roots(u, level, 0, at + TreeSize(u, level, m)) == [];
      }
    }
  }

  predicate TreeFits(u: nat, level: nat, n: nat) { n <= Pow(u, level) && (level == 0 ==> n == 1) }

  /** A tree of `level` over the data blocks `chunks`, its root at block `at`. */
  function Tree(u: nat, level: nat, chunks: seq<seq<byte>>, at: nat, chain: nat): (blocks: seq<seq<byte>>)
    requires u >= 1 && TreeFits(u, level, |chunks|)
    ensures |blocks| == TreeSize(u, level, |chunks|)
    decreases level, 0
  {
    if level == 0 then [chunks[0]]
    else
      RootsCount(u, level - 1, |chunks|, at + 1, u);
      [MapBlock(u, Roots(u, level - 1, |chunks|, at + 1), chain)] + Trees(u, level - 1, chunks, at + 1)
  }

  function Trees(u: nat, level: nat, chunks: seq<seq<byte>>, at: nat): (blocks: seq<seq<byte>>)
    requires u >= 1
    ensures |blocks| == TreesSize(u, level, |chunks|)
    decreases level, |chunks| + 1
  {
    if chunks == [] then []
    else
      var m := Min(Pow(u, level), |chunks|);
      Tree(u, level, chunks[..m], at, 0) + Trees(u, level, chunks[m..], at + TreeSize(u, level, m))
  }

  /** Which blocks the data blocks of a tree are. */
  function Numbers(u: nat, level: nat, n: nat, at: nat): (r: seq<nat>)
    requires u >= 1 && TreeFits(u, level, n)
    ensures |r| == n
    decreases level, 0
  {
    if level == 0 then [at] else AllNumbers(u, level - 1, n, at + 1)
  }

  function AllNumbers(u: nat, level: nat, n: nat, at: nat): (r: seq<nat>)
    requires u >= 1
    ensures |r| == n
    decreases level, n + 1
  {
    if n == 0 then []
    else
      var m := Min(Pow(u, level), n);
      Numbers(u, level, m, at) + AllNumbers(u, level, n - m, at + TreeSize(u, level, m))
  }

  /** The blocks `blocks` are those of the disk from `at` on. */
  ghost predicate Sits(disk: Disk, at: nat, blocks: seq<seq<byte>>) {
    at + |blocks| <= |disk| && disk[at..at + |blocks|] == blocks
  }

  lemma {:induction false} SitsSplit(disk: Disk, at: nat, a: seq<seq<byte>>, b: seq<seq<byte>>)
    requires Sits(disk, at, a + b)
    ensures Sits(disk, at, a) && Sits(disk, at + |a|, b)
  {
    var all := disk[at..at + |a + b|];
    assert disk[at..at + |a|] == all[..|a|];
    assert disk[at + |a|..at + |a| + |b|] == all[|a|..];
  }

  lemma {:induction false} SitsInside(disk: Disk, at: nat, blocks: seq<seq<byte>>)
    requires Sits(disk, at, blocks)
    ensures at + |blocks| <= |disk|
  {}

  /** The data blocks are where `numbers` says. */
  ghost predicate Carries(disk: Disk, numbers: seq<nat>, chunks: seq<seq<byte>>) {
    |numbers| == |chunks| && forall i :: 0 <= i < |numbers| ==> 0 < numbers[i] < |disk| && disk[numbers[i]] == chunks[i]
  }

  lemma {:induction false} CarriesJoin(disk: Disk, a: seq<nat>, x: seq<seq<byte>>, b: seq<nat>, y: seq<seq<byte>>)
    requires Carries(disk, a, x) && Carries(disk, b, y)
    ensures Carries(disk, a + b, x + y)
  {}

  lemma {:induction false} TreeWritten(disk: Disk, u: nat, level: nat, chunks: seq<seq<byte>>, at: nat, chain: nat)
    requires u >= 1 && TreeFits(u, level, |chunks|) && at > 0 && |disk| <= MAX_UINT64 && chain <= MAX_UINT64
    requires Sits(disk, at, Tree(u, level, chunks, at, chain))
    ensures TreeHolds(disk, u, level, at, Numbers(u, level, |chunks|, at))
    ensures Carries(disk, Numbers(u, level, |chunks|, at), chunks)
    ensures level > 0 ==> PointsTo(disk, at, u, chain)
    decreases level, 0
  {
    hide MapBlock;
    if level == 0 {
      assert disk[at] == disk[at..at + 1][0];
    } else {
      var roots := Roots(u, level - 1, |chunks|, at + 1);
      RootsCount(u, level - 1, |chunks|, at + 1, u);
      var root, below := MapBlock(u, roots, chain), Trees(u, level - 1, chunks, at + 1);
      SitsSplit(disk, at, [root], below);
      assert disk[at] == disk[at..at + 1][0] == root;
      RootWritten(disk, u, at, roots, chain);
      TreesCarry(disk, u, level - 1, chunks, at + 1);
      var p := Pow(u, level - 1);
      var numbers := Numbers(u, level, |chunks|, at);
      forall slot: nat | slot * p < |numbers| ensures ChildHolds(disk, u, level, at, numbers, slot) {
        TreesWritten(disk, u, level - 1, chunks, at + 1, slot);
        assert PointsTo(disk, at, slot, roots[slot]);
      }
    }
  }

  lemma {:induction false} RootWritten(disk: Disk, u: nat, at: nat, roots: seq<nat>, chain: nat)
    requires at < |disk| && |roots| <= u && disk[at] == MapBlock(u, roots, chain) && chain <= MAX_UINT64
    ensures PointsTo(disk, at, u, chain)
    ensures forall slot: nat :: slot < |roots| && roots[slot] <= MAX_UINT64 ==> PointsTo(disk, at, slot, roots[slot])
  {
    var words := roots + Zeros(u - |roots|) + [chain];
    WordsAt(words, u);
    forall slot: nat | slot < |roots| && roots[slot] <= MAX_UINT64 ensures PointsTo(disk, at, slot, roots[slot]) {
      WordsAt(words, slot);
    }
  }

  lemma {:induction false} NothingCarried(disk: Disk, u: nat, level: nat, at: nat)
    requires u >= 1
    ensures Carries(disk, AllNumbers(u, level, 0, at), [])
  {}

  lemma {:induction false} TreesCarry(disk: Disk, u: nat, level: nat, chunks: seq<seq<byte>>, at: nat)
    requires u >= 1 && at > 0 && |disk| <= MAX_UINT64 && Sits(disk, at, Trees(u, level, chunks, at))
    ensures Carries(disk, AllNumbers(u, level, |chunks|, at), chunks)
    decreases level, |chunks| + 1
  {
    hide TreeHolds;
    hide Tree;
    hide Trees;
    hide Roots;
    hide Numbers;
    hide AllNumbers;
    hide TreeSize;
    hide Sits;
    hide Carries;
    if chunks == [] {
      NothingCarried(disk, u, level, at);
    } else {
      TreesUnfold(u, level, chunks, at);
      var m := Min(Pow(u, level), |chunks|);
      var next := at + TreeSize(u, level, m);
      var one, others := chunks[..m], chunks[m..];
      SitsSplit(disk, at, Tree(u, level, one, at, 0), Trees(u, level, others, next));
      TreeWritten(disk, u, level, one, at, 0);
      TreesCarry(disk, u, level, others, next);
      CarriesJoin(disk, Numbers(u, level, m, at), one, AllNumbers(u, level, |others|, next), others);
      assert one + others == chunks;
    }
  }

  /** The first of several trees, and the others. */
  lemma {:induction false} TreesUnfold(u: nat, level: nat, chunks: seq<seq<byte>>, at: nat)
    requires u >= 1 && chunks != []
    ensures var n, m := |chunks|, Min(Pow(u, level), |chunks|);
            var next := at + TreeSize(u, level, m);
            && Trees(u, level, chunks, at) == Tree(u, level, chunks[..m], at, 0) + Trees(u, level, chunks[m..], next)
            && Roots(u, level, n, at) == [at] + Roots(u, level, n - m, next)
            && AllNumbers(u, level, n, at) == Numbers(u, level, m, at) + AllNumbers(u, level, n - m, next)
  {}

  lemma {:induction false} PartOfJoin(first: seq<nat>, rest: seq<nat>, p: nat, slot: nat)
    requires |first| == Min(p, |first| + |rest|) && slot * p < |first| + |rest|
    ensures slot == 0 ==> Part(first + rest, slot * p, p) == first
    ensures slot > 0 ==> 0 <= (slot - 1) * p < |rest| && |first| == p && Part(first + rest, slot * p, p) == Part(rest, (slot - 1) * p, p)
  {
    if slot > 0 {
      Distribute(slot, -1, p);
      MulLe(1, slot, p);
    }
  }

  /** The trees under a mapping block: the `slot`-th holds its share of the data blocks. */
  lemma {:induction false} TreesWritten(disk: Disk, u: nat, level: nat, chunks: seq<seq<byte>>, at: nat, slot: nat)
    requires u >= 1 && at > 0 && |disk| <= MAX_UINT64 && Sits(disk, at, Trees(u, level, chunks, at))
    requires slot * Pow(u, level) < |chunks|
    ensures var roots := Roots(u, level, |chunks|, at);
            var p := Pow(u, level);
            && slot < |roots| && roots[slot] <= MAX_UINT64
            && TreeHolds(disk, u, level, roots[slot], Part(AllNumbers(u, level, |chunks|, at), slot * p, p))
    decreases level, |chunks| + 1
  {
    hide TreeHolds;
    hide Tree;
    hide Trees;
    hide Roots;
    hide Numbers;
    hide AllNumbers;
    hide TreeSize;
    hide Part;
    hide Sits;
    TreesUnfold(u, level, chunks, at);
    var p, n := Pow(u, level), |chunks|;
    var m := Min(p, n);
    var next := at + TreeSize(u, level, m);
    SitsSplit(disk, at, Tree(u, level, chunks[..m], at, 0), Trees(u, level, chunks[m..], next));
    PartOfJoin(Numbers(u, level, m, at), AllNumbers(u, level, n - m, next), p, slot);
    if slot == 0 {
      SitsInside(disk, at, Tree(u, level, chunks[..m], at, 0));
      TreeWritten(disk, u, level, chunks[..m], at, 0);
    } else {
      TreesWritten(disk, u, level, chunks[m..], next, slot - 1);
    }
  }

  // ---- the chain of trees -----------------------------------------------------------------------

  /** Five trees are enough for `n` data blocks. */
  predicate ChainFits(u: nat, level: nat, n: nat)
    requires level <= 5
    decreases 5 - level
  {
    n <= Pow(u, level) || (level < 5 && ChainFits(u, level + 1, n - Pow(u, level)))
  }

  /** The trees of a file, from `level` on, the first at block `at`. */
  function ChainOf(u: nat, level: nat, chunks: seq<seq<byte>>, at: nat): seq<seq<byte>>
    requires u >= 1 && 1 <= level <= 5 && ChainFits(u, level, |chunks|)
    decreases 5 - level
  {
    var p := Pow(u, level);
    if |chunks| <= p then Tree(u, level, chunks, at, 0)
    else
      var next := at + TreeSize(u, level, p);
      Tree(u, level, chunks[..p], at, next) + ChainOf(u, level + 1, chunks[p..], next)
  }

  function ChainNumbers(u: nat, level: nat, n: nat, at: nat): (r: seq<nat>)
    requires u >= 1 && 1 <= level <= 5 && ChainFits(u, level, n)
    ensures |r| == n
    decreases 5 - level
  {
    var p := Pow(u, level);
    if n <= p then Numbers(u, level, n, at)
    else Numbers(u, level, p, at) + ChainNumbers(u, level + 1, n - p, at + TreeSize(u, level, p))
  }

  lemma {:induction false} ChainWritten(disk: Disk, u: nat, level: nat, chunks: seq<seq<byte>>, at: nat)
    requires u >= 1 && 1 <= level <= 5 && ChainFits(u, level, |chunks|) && at > 0 && |disk| <= MAX_UINT64
    requires Sits(disk, at, ChainOf(u, level, chunks, at))
    ensures ChainHolds(disk, u, level, at, ChainNumbers(u, level, |chunks|, at))
    ensures Carries(disk, ChainNumbers(u, level, |chunks|, at), chunks)
    decreases 5 - level
  {
    hide TreeHolds;
    hide Tree;
    hide TreeSize;
    hide Numbers;
    hide PointsTo;
    hide Carries;
    hide Sits;
    hide Pow;
    var p := Pow(u, level);
    if |chunks| <= p {
      TreeWritten(disk, u, level, chunks, at, 0);
    } else {
      var next := at + TreeSize(u, level, p);
      SitsSplit(disk, at, Tree(u, level, chunks[..p], at, next), ChainOf(u, level + 1, chunks[p..], next));
      SitsInside(disk, next, ChainOf(u, level + 1, chunks[p..], next));
      TreeWritten(disk, u, level, chunks[..p], at, next);
      ChainWritten(disk, u, level + 1, chunks[p..], next);
      var a, b := Numbers(u, level, p, at), ChainNumbers(u, level + 1, |chunks| - p, next);
      CarriesJoin(disk, a, chunks[..p], b, chunks[p..]);
      assert chunks[..p] + chunks[p..] == chunks;
      assert (a + b)[..p] == a && (a + b)[p..] == b;
    }
  }

  // ---- blocks of the right size -------------------------------------------------------------------

  ghost predicate AllSized(blocks: seq<seq<byte>>, size: nat) { forall k :: 0 <= k < |blocks| ==> |blocks[k]| == size }

  lemma {:induction false} SizedJoin(a: seq<seq<byte>>, b: seq<seq<byte>>, size: nat)
    requires AllSized(a, size) && AllSized(b, size)
    ensures AllSized(a + b, size)
  {}

  lemma {:induction false} TreeSized(u: nat, level: nat, chunks: seq<seq<byte>>, at: nat, chain: nat)
    requires u >= 1 && TreeFits(u, level, |chunks|) && AllSized(chunks, 8 * (u + 1))
    ensures AllSized(Tree(u, level, chunks, at, chain), 8 * (u + 1))
    decreases level, 0
  {
    if level > 0 {
      RootsCount(u, level - 1, |chunks|, at + 1, u);
      TreesSized(u, level - 1, chunks, at + 1);
    }
  }

  lemma {:induction false} TreesSized(u: nat, level: nat, chunks: seq<seq<byte>>, at: nat)
    requires u >= 1 && AllSized(chunks, 8 * (u + 1))
    ensures AllSized(Trees(u, level, chunks, at), 8 * (u + 1))
    decreases level, |chunks| + 1
  {
    hide Tree;
    hide Roots;
    hide Numbers;
    hide AllNumbers;
    hide TreeSize;
    if chunks != [] {
      hide Trees;
      TreesUnfold(u, level, chunks, at);
      var m := Min(Pow(u, level), |chunks|);
      var next := at + TreeSize(u, level, m);
      TreeSized(u, level, chunks[..m], at, 0);
      TreesSized(u, level, chunks[m..], next);
      SizedJoin(Tree(u, level, chunks[..m], at, 0), Trees(u, level, chunks[m..], next), 8 * (u + 1));
    }
  }

  lemma {:induction false} ChainSized(u: nat, level: nat, chunks: seq<seq<byte>>, at: nat)
    requires u >= 1 && 1 <= level <= 5 && ChainFits(u, level, |chunks|) && AllSized(chunks, 8 * (u + 1))
    ensures AllSized(ChainOf(u, level, chunks, at), 8 * (u + 1))
    decreases 5 - level
  {
    hide Tree;
    var p := Pow(u, level);
    if |chunks| <= p {
      TreeSized(u, level, chunks, at, 0);
    } else {
      var next := at + TreeSize(u, level, p);
      TreeSized(u, level, chunks[..p], at, next);
      ChainSized(u, level + 1, chunks[p..], next);
    }
  }

  // ---- files ------------------------------------------------------------------------------------

  datatype File = File(name: seq<byte>, bytes: seq<byte>)

  function ZeroBlock(n: nat): (s: seq<byte>)
    ensures |s| == n && forall k :: 0 <= k < n ==> s[k] == 0
  {
    seq(n, _ => 0)
  }

  /** The bytes in blocks, the last one filled up. */
  function Chunks(bytes: seq<byte>, blockSize: nat): (c: seq<seq<byte>>)
    requires blockSize > 0
    decreases |bytes|
  {
    if bytes == [] then []
    else if |bytes| <= blockSize then [bytes + ZeroBlock(blockSize - |bytes|)]
    else [bytes[..blockSize]] + Chunks(bytes[blockSize..], blockSize)
  }

  lemma {:induction false} ChunksSized(bytes: seq<byte>, blockSize: nat)
    requires blockSize > 0
    ensures AllSized(Chunks(bytes, blockSize), blockSize)
    ensures var n := |Chunks(bytes, blockSize)|; (n - 1) * blockSize < |bytes| <= n * blockSize
    decreases |bytes|
  {
    if |bytes| > blockSize {
      ChunksSized(bytes[blockSize..], blockSize);
      var n := |Chunks(bytes, blockSize)|;
      Distribute(n - 1, 1, blockSize);
      Distribute(n - 2, 1, blockSize);
    }
  }

  lemma {:induction false} ChunkAt(bytes: seq<byte>, blockSize: nat, i: nat, j: nat)
    requires blockSize > 0 && i < |Chunks(bytes, blockSize)| && j < blockSize && i * blockSize + j < |bytes|
    ensures |Chunks(bytes, blockSize)[i]| == blockSize && Chunks(bytes, blockSize)[i][j] == bytes[i * blockSize + j]
    decreases |bytes|
  {
    if i > 0 {
      Distribute(i, -1, blockSize);
      MulLe(1, i, blockSize);
      ChunkAt(bytes[blockSize..], blockSize, i - 1, j);
    }
  }

  /** The file can be stored: it has a name, and not more data blocks than five trees hold. */
  predicate Storable(f: File, blockSize: nat)
    requires BlockSizeOk(blockSize)
  {
    && ValidName(f.name) && |f.bytes| < INT_LIMIT
    && ChainFits(blockSize / 8 - 1, 1, |Chunks(f.bytes, blockSize)|)
  }

  /** The blocks of a file whose first mapping block is block `at`. */
  function FileBlocks(f: File, blockSize: nat, at: nat): seq<seq<byte>>
    requires BlockSizeOk(blockSize) && Storable(f, blockSize)
  {
    ChainOf(blockSize / 8 - 1, 1, Chunks(f.bytes, blockSize), at)
  }

  function PlacedAt(f: File, blockSize: nat, at: nat): Placed
    requires BlockSizeOk(blockSize) && Storable(f, blockSize)
  {
    Placed(f.name, f.bytes, at, ChainNumbers(blockSize / 8 - 1, 1, |Chunks(f.bytes, blockSize)|, at))
  }

  lemma {:induction false} FileWritten(disk: Disk, f: File, blockSize: nat, at: nat)
    requires DiskOk(disk, blockSize) && Storable(f, blockSize) && at > 0 && |disk| <= MAX_UINT64
    requires Sits(disk, at, FileBlocks(f, blockSize, at))
    ensures FileHolds(disk, blockSize, at, f.bytes, PlacedAt(f, blockSize, at).blocks)
  {
    hide ChainOf;
    hide ChainHolds;
    hide ChainNumbers;
    hide ChainFits;
    hide Chunks;
    var chunks, blocks := Chunks(f.bytes, blockSize), PlacedAt(f, blockSize, at).blocks;
    ChainWritten(disk, blockSize / 8 - 1, 1, chunks, at);
    ChunksSized(f.bytes, blockSize);
    forall i, j | 0 <= i < |blocks| && 0 <= j < |disk[blocks[i]]| && i * blockSize + j < |f.bytes|
      ensures disk[blocks[i]][j] == f.bytes[i * blockSize + j]
    {
      ChunkAt(f.bytes, blockSize, i, j);
    }
  }

  ghost predicate AllStorable(files: seq<File>, blockSize: nat)
    requires BlockSizeOk(blockSize)
  {
    forall k :: 0 <= k < |files| ==> Storable(files[k], blockSize)
  }

  /** The files one after the other, from block `at` on. */
  ghost function FilesBlocks(files: seq<File>, blockSize: nat, at: nat): seq<seq<byte>>
    requires BlockSizeOk(blockSize) && AllStorable(files, blockSize)
  {
    if files == [] then []
    else
      var first := FileBlocks(files[0], blockSize, at);
      first + FilesBlocks(files[1..], blockSize, at + |first|)
  }

  ghost function Placements(files: seq<File>, blockSize: nat, at: nat): (r: seq<Placed>)
    requires BlockSizeOk(blockSize) && AllStorable(files, blockSize)
    ensures |r| == |files|
  {
    if files == [] then []
    else [PlacedAt(files[0], blockSize, at)] + Placements(files[1..], blockSize, at + |FileBlocks(files[0], blockSize, at)|)
  }

  lemma {:induction false} FileSized(f: File, blockSize: nat, at: nat)
    requires BlockSizeOk(blockSize) && Storable(f, blockSize)
    ensures AllSized(FileBlocks(f, blockSize, at), blockSize)
  {
    hide ChainOf;
    hide ChainFits;
    hide Chunks;
    ChunksSized(f.bytes, blockSize);
    ChainSized(blockSize / 8 - 1, 1, Chunks(f.bytes, blockSize), at);
  }

  lemma {:induction false} FilesSized(files: seq<File>, blockSize: nat, at: nat)
    requires BlockSizeOk(blockSize) && AllStorable(files, blockSize)
    ensures AllSized(FilesBlocks(files, blockSize, at), blockSize)
    decreases |files|
  {
    hide FileBlocks;
    hide Storable;
    if files != [] {
      var first := FileBlocks(files[0], blockSize, at);
      FileSized(files[0], blockSize, at);
      FilesSized(files[1..], blockSize, at + |first|);
      SizedJoin(first, FilesBlocks(files[1..], blockSize, at + |first|), blockSize);
    }
  }

  /** The container holds file `k` where the entry says. */
  ghost predicate HoldsFile(disk: Disk, blockSize: nat, f: File, p: Placed)
    requires blockSize >= 8
  {
    && p.name == f.name && p.bytes == f.bytes && p.root < |disk|
    && FileHolds(disk, blockSize, p.root, p.bytes, p.blocks)
  }

  lemma {:induction false} FilesWritten(disk: Disk, files: seq<File>, blockSize: nat, at: nat, k: nat)
    requires DiskOk(disk, blockSize) && AllStorable(files, blockSize) && at > 0 && |disk| <= MAX_UINT64
    requires Sits(disk, at, FilesBlocks(files, blockSize, at)) && k < |files|
    ensures HoldsFile(disk, blockSize, files[k], Placements(files, blockSize, at)[k])
    decreases k
  {
    hide FileBlocks;
    hide Storable;
    hide FileHolds;
    hide Sits;
    var first := FileBlocks(files[0], blockSize, at);
    SitsSplit(disk, at, first, FilesBlocks(files[1..], blockSize, at + |first|));
    if k == 0 {
      FileNotEmpty(files[0], blockSize, at);
      SitsInside(disk, at, first);
      FileWritten(disk, files[0], blockSize, at);
    } else {
      FilesWritten(disk, files[1..], blockSize, at + |first|, k - 1);
    }
  }

  lemma {:induction false} FileNotEmpty(f: File, blockSize: nat, at: nat)
    requires BlockSizeOk(blockSize) && Storable(f, blockSize)
    ensures |FileBlocks(f, blockSize, at)| > 0
  {
    hide Chunks;
    hide Tree;
    hide ChainFits;
  }

  // ---- block 0 ------------------------------------------------------------------------------------

  function HeaderBytes(version: byte, shards: byte, blockSize: nat, maxRootEntries: nat): (s: seq<byte>)
    ensures |s| == 16
  {
    [0xc0, 0xde, 0x72, 0xac, 0xe2, version, 0, shards] + LittleEndian(blockSize, 4) + LittleEndian(maxRootEntries, 4)
  }

  function EntryBytes(p: Placed): (s: seq<byte>)
    requires ValidName(p.name)
    ensures |s| == 24
  {
    LittleEndian(|p.bytes|, 8) + LittleEndian(p.root, 8) + LittleEndian(Value(p.name), 8)
  }

  predicate AllNamed(placed: seq<Placed>) { forall k :: 0 <= k < |placed| ==> ValidName(placed[k].name) }

  function EntriesBytes(placed: seq<Placed>): (s: seq<byte>)
    requires AllNamed(placed)
    ensures |s| == 24 * |placed|
  {
    if placed == [] then [] else EntryBytes(placed[0]) + EntriesBytes(placed[1..])
  }

  lemma {:induction false} EntriesAt(placed: seq<Placed>, k: nat)
    requires AllNamed(placed) && k < |placed|
    ensures EntriesBytes(placed)[24 * k..24 * k + 24] == EntryBytes(placed[k])
    decreases k
  {
    hide EntryBytes;
    if k > 0 {
      EntriesAt(placed[1..], k - 1);
      var rest := EntriesBytes(placed[1..]);
      assert EntriesBytes(placed)[24 * k..24 * k + 24] == rest[24 * (k - 1)..24 * (k - 1) + 24];
    }
  }

  /** Header, free-list roots, entries, and nothing after them. */
  function FirstBlock(header: seq<byte>, lists: seq<byte>, entries: seq<byte>, blockSize: nat): (s: seq<byte>)
    requires |header| + |lists| + |entries| <= blockSize
    ensures |s| == blockSize
  {
    header + lists + entries + ZeroBlock(blockSize - |header| - |lists| - |entries|)
  }

  // ---- a container ----------------------------------------------------------------------------------

  /** What the writer is given: any version, the shards with the contents of their free-list roots (in a
      container of several; otherwise none are kept apart), the number of entries to declare (0: as
      many as fit), and the files. */
  datatype Job = Job(blockSize: nat, version: byte, shards: byte, lists: seq<byte>, maxRootEntries: nat, files: seq<File>)

  predicate DistinctFiles(files: seq<File>) { forall i, j :: 0 <= i < j < |files| ==> files[i].name != files[j].name }

  /** There is a file, the names are different, and everything fits: `count` entries in block 0, the files
      in those entries, the blocks in a 64-bit number. */
  ghost predicate Fits(job: Job, count: nat) {
    && BlockSizeOk(job.blockSize) && |job.lists| == EntryArray(job.shards) - 16 && job.maxRootEntries <= MAX_UINT32
    && SlotCount(count, job.blockSize, EntryArray(job.shards), job.maxRootEntries)
    && 0 < |job.files| <= count && AllStorable(job.files, job.blockSize) && DistinctFiles(job.files)
    && 1 + |FilesBlocks(job.files, job.blockSize, 1)| <= MAX_UINT64
  }

  ghost function PlacedFiles(job: Job, count: nat): (placed: seq<Placed>)
    requires Fits(job, count)
    ensures |placed| == |job.files|
  {
    Placements(job.files, job.blockSize, 1)
  }

  lemma {:induction false} PlacedAsGiven(files: seq<File>, blockSize: nat, at: nat)
    requires BlockSizeOk(blockSize) && AllStorable(files, blockSize)
    ensures var placed := Placements(files, blockSize, at);
            AllNamed(placed) && forall k :: 0 <= k < |files| ==> placed[k].name == files[k].name && placed[k].bytes == files[k].bytes
    decreases |files|
  {
    hide FileBlocks;
    hide ChainNumbers;
    hide Chunks;
    if files != [] {
      PlacedAsGiven(files[1..], blockSize, at + |FileBlocks(files[0], blockSize, at)|);
    }
  }

  /** Block 0, and the blocks of the files after it. */
  ghost function Written(job: Job, count: nat): (disk: Disk)
    requires Fits(job, count)
  {
    PlacedAsGiven(job.files, job.blockSize, 1);
    var header := HeaderBytes(job.version, job.shards, job.blockSize, job.maxRootEntries);
    [FirstBlock(header, job.lists, EntriesBytes(PlacedFiles(job, count)), job.blockSize)] + FilesBlocks(job.files, job.blockSize, 1)
  }

  /** The entry array of the written container. */
  ghost function Slots(placed: seq<Placed>, count: nat): (slots: seq<Option<Placed>>)
    ensures |slots| == count
  {
    seq(count, k requires 0 <= k < count => if k < |placed| then Some(placed[k]) else None)
  }

  lemma {:induction false} FirstBlockHolds(header: seq<byte>, lists: seq<byte>, placed: seq<Placed>, blockSize: nat, k: nat)
    requires AllNamed(placed) && |header| + |lists| + 24 * |placed| <= blockSize
    ensures var block0, at := FirstBlock(header, lists, EntriesBytes(placed), blockSize), |header| + |lists| + 24 * k;
            && header <= block0
            && (k < |placed| && |placed[k].bytes| <= MAX_UINT64 && placed[k].root <= MAX_UINT64 ==> EntryHolds(block0, at, placed[k]))
            && (k >= |placed| && at + 24 <= blockSize ==> Zeroed(block0, at, at + 24))
  {
    hide EntryHolds;
    hide EntryBytes;
    hide EntriesBytes;
    var entries := EntriesBytes(placed);
    var block0, at := FirstBlock(header, lists, entries, blockSize), |header| + |lists| + 24 * k;
    if k < |placed| && |placed[k].bytes| <= MAX_UINT64 && placed[k].root <= MAX_UINT64 {
      EntriesAt(placed, k);
      assert block0[at..at + 24] == entries[24 * k..24 * k + 24];
      EntryWritten(block0, at, placed[k]);
    }
  }

  lemma {:induction false} EntryWritten(block0: seq<byte>, at: nat, p: Placed)
    requires ValidName(p.name) && |p.bytes| <= MAX_UINT64 && p.root <= MAX_UINT64
    requires at + 24 <= |block0| && block0[at..at + 24] == EntryBytes(p)
    ensures EntryHolds(block0, at, p)
  {
    hide LittleEndian;
    ThreeWords(block0, at, LittleEndian(|p.bytes|, 8), LittleEndian(p.root, 8), LittleEndian(Value(p.name), 8));
  }

  lemma {:induction false} ThreeWords(s: seq<byte>, at: nat, a: seq<byte>, b: seq<byte>, c: seq<byte>)
    requires at + 24 <= |s| && |a| == |b| == |c| == 8 && s[at..at + 24] == a + b + c
    ensures s[at..at + 8] == a && s[at + 8..at + 16] == b && s[at + 16..at + 24] == c
  {
    var e := s[at..at + 24];
    forall k | 0 <= k < 24 ensures s[at + k] == (a + b + c)[k] { assert e[k] == s[at + k]; }
    forall k | 0 <= k < 8
      ensures s[at..at + 8][k] == a[k] && s[at + 8..at + 16][k] == b[k] && s[at + 16..at + 24][k] == c[k]
    {
      assert s[at + k] == (a + b + c)[k];
      assert s[at + (8 + k)] == (a + b + c)[8 + k];
      assert s[at + (16 + k)] == (a + b + c)[16 + k];
    }
  }

  lemma {:induction false} HeaderWritten(job: Job, block0: seq<byte>)
    requires HeaderBytes(job.version, job.shards, job.blockSize, job.maxRootEntries) <= block0
    ensures HeaderHolds(block0, job.shards, job.blockSize, job.maxRootEntries)
  {
    var h := HeaderBytes(job.version, job.shards, job.blockSize, job.maxRootEntries);
    assert block0[8..12] == h[8..12] == LittleEndian(job.blockSize, 4);
    assert block0[12..16] == h[12..16] == LittleEndian(job.maxRootEntries, 4);
  }

  lemma {:induction false} WrittenSlot(job: Job, count: nat, k: nat)
    requires Fits(job, count) && k < count
    ensures var disk := Written(job, count);
            && DiskOk(disk, job.blockSize) && |disk| > 0
            && SlotHolds(disk, job.blockSize, EntryArray(job.shards) + 24 * k, Slots(PlacedFiles(job, count), count)[k])
  {
    hide FilesBlocks;
    hide Placements;
    hide FirstBlock;
    hide HeaderBytes;
    hide FileHolds;
    hide EntryHolds;
    hide Storable;
    var disk, placed := Written(job, count), PlacedFiles(job, count);
    var header := HeaderBytes(job.version, job.shards, job.blockSize, job.maxRootEntries);
    PlacedAsGiven(job.files, job.blockSize, 1);
    FilesSized(job.files, job.blockSize, 1);
    var rest := FilesBlocks(job.files, job.blockSize, 1);
    assert Sits(disk, 1, rest) by { assert disk[1..1 + |rest|] == rest; }
    if k < |placed| {
      FilesWritten(disk, job.files, job.blockSize, 1, k);
      StorableSize(job.files[k], job.blockSize);
    }
    FirstBlockHolds(header, job.lists, placed, job.blockSize, k);
  }

  lemma {:induction false} StorableSize(f: File, blockSize: nat)
    requires BlockSizeOk(blockSize) && Storable(f, blockSize)
    ensures ValidName(f.name) && |f.bytes| < INT_LIMIT <= MAX_UINT64
  {}

  /** What the writer writes is laid out as the format says. */
  lemma {:induction false} WrittenIsLaidOut(job: Job, count: nat)
    requires Fits(job, count)
    ensures LaidOut(Written(job, count), job.blockSize, job.shards, EntryArray(job.shards), job.maxRootEntries,
                    Slots(PlacedFiles(job, count), count))
  {
    hide FilesBlocks;
    hide Placements;
    hide FirstBlock;
    hide HeaderBytes;
    hide SlotHolds;
    hide Storable;
    var disk, placed := Written(job, count), PlacedFiles(job, count);
    var slots := Slots(placed, count);
    WrittenSlot(job, count, 0);
    forall k | 0 <= k < |slots| ensures SlotHolds(disk, job.blockSize, EntryArray(job.shards) + 24 * k, slots[k]) {
      WrittenSlot(job, count, k);
    }
    PlacedAsGiven(job.files, job.blockSize, 1);
    FirstBlockHolds(HeaderBytes(job.version, job.shards, job.blockSize, job.maxRootEntries), job.lists, placed, job.blockSize, 0);
    HeaderWritten(job, disk[0]);
    assert slots[0].Some?;
  }

  /** Round trip: the container opens, every file that was written is read back byte for byte, and no
      other name is found. */
  lemma {:induction false} WrittenIsRead(job: Job, count: nat, tail: seq<byte>, name: seq<byte>)
    requires Fits(job, count) && |tail| < job.blockSize
    ensures var file := Join(Written(job, count)) + tail;
            && Opened(file).Ok? && ContainerOk(Opened(file).value)
            && var found := FileBytes(file, Opened(file).value, name);
               && (forall k :: 0 <= k < |job.files| && job.files[k].name == name ==> found == Some(job.files[k].bytes))
               && ((forall k :: 0 <= k < |job.files| ==> job.files[k].name != name) ==> found.None?)
  {
    hide Written;
    hide Placements;
    hide FilesBlocks;
    hide LaidOut;
    hide Opened;
    hide FileBytes;
    hide Storable;
    var placed := PlacedFiles(job, count);
    var slots := Slots(placed, count);
    WrittenIsLaidOut(job, count);
    LaidOutIsRead(Written(job, count), tail, job.blockSize, job.shards, job.maxRootEntries, slots, name);
    PlacedAsGiven(job.files, job.blockSize, 1);
    forall k | 0 <= k < |job.files|
      ensures slots[k].Some? && slots[k].value.name == job.files[k].name && slots[k].value.bytes == job.files[k].bytes
    {
      assert slots[k] == Some(placed[k]);
    }
  }
}
