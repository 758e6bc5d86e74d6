/** The loops that open a container and find a file in it. */
module Containers {
  import opened Wrappers
  import opened Base40Spec
  import opened MappingSpec
  import opened ContainerSpec
  import Base40
  import Mapping

  /** The name word's round trip through the two coders. */
  method CheckName(word: nat) returns (ok: bool)
    ensures ok == NameWordOk(word)
  {
    var name := Base40.DecodeName(word);
    if name == [] {
      return false;
    }
    var back := Base40.EncodeName(name);
    ok := back == Ok(word);
  }

  method ValidateEntries(block0: seq<byte>, base: nat, count: int, nextFree: nat) returns (ok: bool)
    requires base + count * ENTRY_SIZE <= |block0|
    ensures ok == EntriesOk(block0, base, count, nextFree)
  {
    hide EntryAt;
    hide NameWordOk;
    var nonEmpty, i := 0, 0;
    while i < count
      invariant 0 <= i && (i <= count || count < 0)
      invariant forall k: nat :: k < i && k < count ==> EntryOk(EntryAt(block0, base, k), nextFree)
      invariant nonEmpty == 0 ==> forall k: nat :: k < i && k < count ==> Unused(EntryAt(block0, base, k))
      invariant nonEmpty > 0 ==> exists k: nat :: k < count && !Unused(EntryAt(block0, base, k))
    {
      var e := EntryAt(block0, base, i);
      if !Unused(e) {
        nonEmpty := nonEmpty + 1;
        var named := CheckName(e.name);
        if !named || e.mapBlock >= nextFree {
          return false;
        }
      }
      i := i + 1;
    }
    ok := nonEmpty != 0;
  }

  method LocateEntryArray(block0: seq<byte>, maxShards: byte, maxRootEntries: nat, nextFree: nat)
    returns (base: Option<nat>)
    ensures base == Locate(block0, Candidates(maxShards), maxRootEntries, nextFree)
  {
    var candidates := Candidates(maxShards);
    assert candidates[0..] == candidates;
    for k := 0 to |candidates|
      invariant Locate(block0, candidates, maxRootEntries, nextFree) ==
                Locate(block0, candidates[k..], maxRootEntries, nextFree)
    {
      var count := EntryCount(|block0|, candidates[k], maxRootEntries);
      assert candidates[k..][0] == candidates[k] && candidates[k..][1..] == candidates[k + 1..];
      if candidates[k] + count * ENTRY_SIZE <= |block0| {
        var ok := ValidateEntries(block0, candidates[k], count, nextFree);
        if ok {
          return Some(candidates[k]);
        }
      }
    }
    base := None;
  }

  method Open(file: seq<byte>) returns (r: Result<Container>)
    ensures r == Opened(file)
  {
    if |file| < HEADER_SIZE {
      return Err;
    }
    var magic := [0xc0, 0xde, 0x72, 0xac, 0xe2];
    for i := 0 to 5
      invariant file[..i] == magic[..i]
    {
      if file[i] != magic[i] {
        assert file[..5][i] == file[i];
        return Err;
      }
      assert file[..i + 1] == file[..i] + [file[i]] && magic[..i + 1] == magic[..i] + [magic[i]];
    }
    assert magic[..5] == magic;
    var blockSize := Word32At(file, 8);
    if file[6] != 0 || !BlockSizeOk(blockSize) || |file| < blockSize {
      return Err;
    }
    var block0, nextFree, maxRootEntries := file[..blockSize], |file| / blockSize, Word32At(file, 12);
    var base := LocateEntryArray(block0, file[7], maxRootEntries, nextFree);
    if base.None? {
      return Err;
    }
    LocatedIsOk(block0, Candidates(file[7]), maxRootEntries, nextFree);
    r := Ok(Container(blockSize, nextFree, |file| % blockSize, base.value,
                      EntryCount(blockSize, base.value, maxRootEntries), block0));
  }

  method ReadFile(file: seq<byte>, c: Container, name: seq<byte>) returns (r: Option<seq<byte>>)
    requires Opened(file) == Ok(c) && |file| < INT_LIMIT
    ensures ContainerOk(c) && r == FileBytes(file, c, name)
  {
    OpenedIsOk(file);
    hide Opened;
    var want := Base40.EncodeName(name);
    if want.Err? {
      return None;
    }
    for i := 0 to c.entryCount
      invariant FindEntry(c, want.value, 0) == FindEntry(c, want.value, i)
    {
      var e := EntryAt(c.block0, c.entryBase, i);
      if e.name == want.value {
        var mapper := new Mapping.Mapper(file, c.blockSize);
        r := mapper.ReadEntry(e.size, e.mapBlock);
        return;
      }
    }
    r := None;
  }
}
