/** Opening a container and reading its internal files (internal/ctfs/container.go:133-400). */
module ContainerSpec {
  import opened Wrappers
  import opened Bytes
  import opened Base40Spec
  import opened MappingSpec
  import Mapping

  const HEADER_SIZE: nat := 16
  const ENTRY_SIZE: nat := 24

  datatype Entry = Entry(size: nat, mapBlock: nat, name: nat)

  datatype Container = Container(
    blockSize: nat,
    nextFree: nat,
    partialTail: nat,
    entryBase: nat,
    entryCount: nat,
    block0: seq<byte>)

  function Word64At(s: seq<byte>, off: nat): nat
    requires off + 8 <= |s|
  {
    FromLittleEndian(s[off..off + 8])
  }

  function Word32At(s: seq<byte>, off: nat): nat
    requires off + 4 <= |s|
  {
    FromLittleEndian(s[off..off + 4])
  }

  predicate HasMagic(s: seq<byte>)
    requires |s| >= HEADER_SIZE
  {
    s[..5] == [0xc0, 0xde, 0x72, 0xac, 0xe2]
  }

  function EntryAt(block0: seq<byte>, base: nat, i: nat): Entry
    requires base + (i + 1) * ENTRY_SIZE <= |block0|
  {
    var off := base + i * ENTRY_SIZE;
    Entry(Word64At(block0, off), Word64At(block0, off + 8), Word64At(block0, off + 16))
  }

  predicate Unused(e: Entry) { e.size == 0 && e.mapBlock == 0 && e.name == 0 }

  /** A used entry names itself with a base-40 word and points at a block of the container. */
  predicate EntryOk(e: Entry, nextFree: nat) { Unused(e) || (NameWordOk(e.name) && e.mapBlock < nextFree) }

  predicate EntriesOk(block0: seq<byte>, base: nat, count: int, nextFree: nat)
    requires base + count * ENTRY_SIZE <= |block0|
  {
    && (forall i: nat :: i < count ==> EntryOk(EntryAt(block0, base, i), nextFree))
    && exists i: nat :: i < count && !Unused(EntryAt(block0, base, i))
  }

  /** Where the entry array may start: after the header, or after the free-list roots too. */
  function Candidates(maxShards: byte): seq<nat> {
    if maxShards == 0 then [HEADER_SIZE]
    else if maxShards == 1 then [HEADER_SIZE, HEADER_SIZE + 48]
    else [HEADER_SIZE + 48 * maxShards, HEADER_SIZE]
  }

  /** Go's integer division, which truncates toward zero. */
  function TruncatedDiv(a: int, b: nat): int
    requires b > 0
  {
    if a >= 0 then a / b else -(-a / b)
  }

  function EntryCount(blockSize: nat, base: nat, maxRootEntries: nat): int {
    if maxRootEntries == 0 then TruncatedDiv(blockSize - base, ENTRY_SIZE) else maxRootEntries
  }

  predicate CandidateOk(block0: seq<byte>, base: nat, maxRootEntries: nat, nextFree: nat) {
    var count := EntryCount(|block0|, base, maxRootEntries);
    base + count * ENTRY_SIZE <= |block0| && EntriesOk(block0, base, count, nextFree)
  }

  /** The first candidate whose entries hold up. */
  function Locate(block0: seq<byte>, candidates: seq<nat>, maxRootEntries: nat, nextFree: nat): Option<nat> {
    if candidates == [] then None
    else if CandidateOk(block0, candidates[0], maxRootEntries, nextFree) then Some(candidates[0])
    else Locate(block0, candidates[1..], maxRootEntries, nextFree)
  }

  lemma {:induction false} LocatedIsOk(block0: seq<byte>, candidates: seq<nat>, maxRootEntries: nat, nextFree: nat)
    ensures var base := Locate(block0, candidates, maxRootEntries, nextFree);
            base.Some? ==> CandidateOk(block0, base.value, maxRootEntries, nextFree)
    decreases |candidates|
  {
    if candidates != [] { LocatedIsOk(block0, candidates[1..], maxRootEntries, nextFree); }
  }

  /** The container a file is, if it is one: magic, no encryption, a usable block size, a whole
      first block, and an entry array in it. */
  function Opened(file: seq<byte>): Result<Container> {
    if |file| < HEADER_SIZE || !HasMagic(file) || file[6] != 0 then Err
    else
      var blockSize := Word32At(file, 8);
      if !BlockSizeOk(blockSize) || |file| < blockSize then Err
      else
        var block0, nextFree := file[..blockSize], |file| / blockSize;
        var base := Locate(block0, Candidates(file[7]), Word32At(file, 12), nextFree);
        if base.None? then Err
        else
          LocatedIsOk(block0, Candidates(file[7]), Word32At(file, 12), nextFree);
          Ok(Container(blockSize, nextFree, |file| % blockSize, base.value,
                       EntryCount(blockSize, base.value, Word32At(file, 12)), block0))
  }

  predicate ContainerOk(c: Container) {
    BlockSizeOk(c.blockSize) && |c.block0| == c.blockSize && c.entryBase + c.entryCount * ENTRY_SIZE <= c.blockSize
  }

  lemma {:induction false} OpenedIsOk(file: seq<byte>)
    ensures var r := Opened(file);
            r.Ok? ==> ContainerOk(r.value) && r.value.nextFree == |file| / r.value.blockSize >= 1
  {
    if Opened(file).Ok? {
      var blockSize := Word32At(file, 8);
      LocatedIsOk(file[..blockSize], Candidates(file[7]), Word32At(file, 12), |file| / blockSize);
    }
  }

  /** The first entry from slot `from` on that carries the name word. */
  function FindEntry(c: Container, word: nat, from: nat): Option<Entry>
    requires ContainerOk(c) && from <= c.entryCount
    decreases c.entryCount - from
  {
    if from == c.entryCount then None
    else
      var e := EntryAt(c.block0, c.entryBase, from);
      if e.name == word then Some(e) else FindEntry(c, word, from + 1)
  }

  /** The bytes of an internal file. */
  ghost function FileBytes(file: seq<byte>, c: Container, name: seq<byte>): Option<seq<byte>>
    requires ContainerOk(c)
  {
    if !ValidName(name) then None
    else
      var e := FindEntry(c, Value(name), 0);
      if e.None? then None
      else Mapping.EntryContent(Mapping.Blocks(file, c.blockSize), c.blockSize, e.value.size, e.value.mapBlock)
  }
}
