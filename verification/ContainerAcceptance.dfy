/** Which files open as a container (internal/ctfs/container.go:135-310), byte by byte. */
module ContainerAcceptance {
  import opened Wrappers
  import opened Arithmetic
  import opened Bytes
  import opened Base40Spec
  import opened MappingSpec
  import opened ContainerSpec
  import opened ContainerLayout

  /** The number in four bytes. */
  function Number32(file: seq<byte>, at: nat): nat
    requires at + 4 <= |file|
  {
    var a: nat, b: nat, c: nat, d: nat := file[at], file[at + 1], file[at + 2], file[at + 3];
    a + 0x100 * b + 0x1_0000 * c + 0x100_0000 * d
  }

  lemma {:induction false} NumberRead(file: seq<byte>, at: nat)
    requires at + 4 <= |file|
    ensures Word32At(file, at) == Number32(file, at)
  {
    var s := file[at..at + 4];
    assert s[1..][0] == s[1] && s[1..][1..][0] == s[2] && s[1..][1..][1..][0] == s[3];
    var a: nat, b: nat, c: nat, d: nat := s[0], s[1], s[2], s[3];
    assert FromLittleEndian(s[1..][1..][1..][1..]) == 0;
    assert FromLittleEndian(s[1..][1..][1..]) == d;
    assert FromLittleEndian(s[1..][1..]) == c + 256 * d;
    assert FromLittleEndian(s[1..]) == b + 256 * (c + 256 * d);
  }

  /** The entry at `at` is all zero, or names a file and a mapping block below `blocks`. */
  ghost predicate PlausibleEntry(block0: seq<byte>, at: nat, blocks: nat) {
    && at + 24 <= |block0|
    && (!Zeroed(block0, at, at + 24) ==>
          && (exists name :: ValidName(name) && block0[at + 16..at + 24] == LittleEndian(Value(name), 8))
          && FromLittleEndian(block0[at + 8..at + 16]) < blocks)
  }

  /** The header of a container that is not encrypted. */
  predicate PlausibleHeader(file: seq<byte>) {
    && |file| >= 16 && file[6] == 0
    && file[0] == 0xc0 && file[1] == 0xde && file[2] == 0x72 && file[3] == 0xac && file[4] == 0xe2
  }

  /** An entry array of `count` entries at `base`: all of them plausible, and one used. */
  ghost predicate PlausibleArray(block0: seq<byte>, base: nat, count: nat, maxRootEntries: nat, blocks: nat) {
    && SlotCount(count, |block0|, base, maxRootEntries)
    && (forall k: nat :: k < count ==> PlausibleEntry(block0, base + 24 * k, blocks))
    && (exists k: nat :: k < count && !Zeroed(block0, base + 24 * k, base + 24 * k + 24))
  }

  /** The two places for it. */
  predicate PlausibleBase(shards: nat, base: nat) { base == 16 || (shards > 0 && base == 16 + 48 * shards) }

  /** A file opens if and only if it has the header of a container that is not encrypted, a whole first
      block of a usable size, and in it a plausible entry array; and the container opened is that. */
  lemma {:induction false} OpensExactly(file: seq<byte>)
    ensures Opened(file).Ok? <==>
            && PlausibleHeader(file)
            && var blockSize := Number32(file, 8);
               && 16 <= blockSize <= |file| && blockSize % 8 == 0
               && exists base: nat, count: nat :: PlausibleBase(file[7], base) &&
                    PlausibleArray(file[..blockSize], base, count, Number32(file, 12), |file| / blockSize)
    ensures Opened(file).Ok? ==>
            var c := Opened(file).value;
            && c.blockSize == Number32(file, 8) > 0 && c.block0 == file[..c.blockSize] && PlausibleBase(file[7], c.entryBase)
            && PlausibleArray(c.block0, c.entryBase, c.entryCount, Number32(file, 12), |file| / c.blockSize)
  {
    hide Locate;
    hide CandidateOk;
    hide PlausibleArray;
    hide Word32At;
    hide Number32;
    if PlausibleHeader(file) {
      NumberRead(file, 8);
      NumberRead(file, 12);
      assert file[..5] == [file[0], file[1], file[2], file[3], file[4]];
      var blockSize := Number32(file, 8);
      NumberBound(file, 8);
      if 16 <= blockSize <= |file| && blockSize % 8 == 0 {
        FoundExactly(file[..blockSize], file[7], Number32(file, 12), |file| / blockSize);
      }
    } else if |file| >= 16 && HasMagic(file) {
      forall i | 0 <= i < 5 ensures file[i] == file[..5][i] {}
    }
  }

  lemma {:induction false} NumberBound(file: seq<byte>, at: nat)
    requires at + 4 <= |file|
    ensures Number32(file, at) < 0x1_0000_0000
  {}

  lemma {:induction false} FoundExactly(block0: seq<byte>, shards: byte, maxRootEntries: nat, blocks: nat)
    ensures var found := Locate(block0, Candidates(shards), maxRootEntries, blocks);
            && (found.Some? <==> exists base: nat, count: nat ::
                  PlausibleBase(shards, base) && PlausibleArray(block0, base, count, maxRootEntries, blocks))
            && (found.Some? ==> var count := EntryCount(|block0|, found.value, maxRootEntries);
                  PlausibleBase(shards, found.value) && count >= 0 && PlausibleArray(block0, found.value, count, maxRootEntries, blocks))
  {
    hide CandidateOk;
    hide PlausibleArray;
    var near, far := 16, 16 + FreeLists(shards);
    CandidateExactly(block0, near, maxRootEntries, blocks);
    CandidateExactly(block0, far, maxRootEntries, blocks);
    assert PlausibleBase(shards, near);
    var list := Candidates(shards);
    assert forall base: nat :: PlausibleBase(shards, base) <==> base in list;
    assert list[1..] == if shards == 0 then [] else [list[1]];
    assert Locate(block0, list[1..], maxRootEntries, blocks) ==
           if shards > 0 && CandidateOk(block0, list[1], maxRootEntries, blocks) then Some(list[1]) else None by {
      if shards > 0 { assert [list[1]][1..] == []; }
    }
  }

  /** A candidate holds up exactly if a plausible array starts there. */
  lemma {:induction false} CandidateExactly(block0: seq<byte>, base: nat, maxRootEntries: nat, blocks: nat)
    ensures CandidateOk(block0, base, maxRootEntries, blocks) <==>
            exists count: nat :: PlausibleArray(block0, base, count, maxRootEntries, blocks)
    ensures CandidateOk(block0, base, maxRootEntries, blocks) ==>
            var count := EntryCount(|block0|, base, maxRootEntries);
            count >= 0 && PlausibleArray(block0, base, count, maxRootEntries, blocks)
  {
    hide EntryAt;
    hide PlausibleEntry;
    hide EntryOk;
    hide Unused;
    hide Zeroed;
    var n := EntryCount(|block0|, base, maxRootEntries);
    forall count: nat | SlotCount(count, |block0|, base, maxRootEntries) ensures n == count {
      if maxRootEntries == 0 { DivModUnique(|block0| - base, count, |block0| - base - count * ENTRY_SIZE, ENTRY_SIZE); }
    }
    if n >= 0 && base + n * ENTRY_SIZE <= |block0| {
      forall k: nat | k < n
        ensures EntryOk(EntryAt(block0, base, k), blocks) <==> PlausibleEntry(block0, base + 24 * k, blocks)
        ensures Unused(EntryAt(block0, base, k)) <==> Zeroed(block0, base + 24 * k, base + 24 * k + 24)
      {
        EntryExactly(block0, base, k, blocks);
      }
      if CandidateOk(block0, base, maxRootEntries, blocks) {
        var used: nat :| used < n && !Unused(EntryAt(block0, base, used));
        assert !Zeroed(block0, base + 24 * used, base + 24 * used + 24);
        forall k: nat | k < n ensures PlausibleEntry(block0, base + 24 * k, blocks) {
          assert EntryOk(EntryAt(block0, base, k), blocks);
        }
        assert PlausibleArray(block0, base, n, maxRootEntries, blocks);
      }
      if count: nat :| PlausibleArray(block0, base, count, maxRootEntries, blocks) {
        var used: nat :| used < count && !Zeroed(block0, base + 24 * used, base + 24 * used + 24);
        assert !Unused(EntryAt(block0, base, used));
        forall k: nat | k < n ensures EntryOk(EntryAt(block0, base, k), blocks) {
          assert PlausibleEntry(block0, base + 24 * k, blocks);
        }
      }
    }
  }

  lemma {:induction false} EntryExactly(block0: seq<byte>, base: nat, k: nat, blocks: nat)
    requires base + (k + 1) * ENTRY_SIZE <= |block0|
    ensures var at, e := base + 24 * k, EntryAt(block0, base, k);
            && (EntryOk(e, blocks) <==> PlausibleEntry(block0, at, blocks))
            && (Unused(e) <==> Zeroed(block0, at, at + 24))
  {
    var at, e := base + 24 * k, EntryAt(block0, base, k);
    WordZero(block0, at);
    WordZero(block0, at + 8);
    WordZero(block0, at + 16);
    WordBytes(block0, at + 16);
    hide Word64At;
    NameExactly(block0[at + 16..at + 24], e.name);
    assert Word64At(block0, at + 8) == e.mapBlock;
  }

  lemma {:induction false} NameExactly(bytes: seq<byte>, word: nat)
    requires bytes == LittleEndian(word, 8) && word <= MAX_UINT64
    ensures NameWordOk(word) <==> exists name :: ValidName(name) && bytes == LittleEndian(Value(name), 8)
  {
    Widths();
    LittleEndianRoundTrip(word, 8);
    AcceptedExactlyIfEncoding(word);
    if NameWordOk(word) { assert ValidName(Decode(word)) && bytes == LittleEndian(Value(Decode(word)), 8); }
    if name :| ValidName(name) && bytes == LittleEndian(Value(name), 8) {
      EncodingIsInjective(name, name);
      LittleEndianRoundTrip(Value(name), 8);
    }
  }

  lemma {:induction false} WordBytes(block: seq<byte>, at: nat)
    requires at + 8 <= |block|
    ensures block[at..at + 8] == LittleEndian(Word64At(block, at), 8) && Word64At(block, at) <= MAX_UINT64
  {
    Widths();
    BytesOfNumber(block[at..at + 8]);
  }

  lemma {:induction false} BytesOfNumber(s: seq<byte>)
    ensures LittleEndian(FromLittleEndian(s), |s|) == s && FromLittleEndian(s) < Pow256(|s|)
    decreases |s|
  {
    if s != [] { BytesOfNumber(s[1..]); }
  }

  lemma {:induction false} WordZero(block: seq<byte>, at: nat)
    requires at + 8 <= |block|
    ensures Word64At(block, at) == 0 <==> Zeroed(block, at, at + 8)
  {
    hide FromLittleEndian;
    if Zeroed(block, at, at + 8) {
      ZeroWord(block, at);
    } else {
      WordBytes(block, at);
      ZeroBytes(8);
      var k :| at <= k < at + 8 && block[k] != 0;
      assert block[at..at + 8][k - at] != 0;
    }
  }
}
