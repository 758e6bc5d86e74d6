/** A partial tail is never read. */
module ContainerTheorems {
  import opened Wrappers
  import opened Bytes
  import opened Base40Spec
  import opened MappingSpec
  import opened ContainerSpec
  import opened Mapping

  lemma {:induction false} TailDivision(size: nat, tail: nat, blockSize: nat)
    requires blockSize > 0 && size % blockSize == 0 && tail < blockSize
    ensures (size + tail) / blockSize == size / blockSize && (size + tail) % blockSize == tail
  {
    var q := size / blockSize;
    assert size == q * blockSize;
    assert (q + 1) * blockSize == q * blockSize + blockSize;
    DivMod(size + tail, blockSize, q + 1);
  }

  /** The whole blocks do not include the tail. */
  lemma {:induction false} TailOutsideBlocks(file: seq<byte>, tail: seq<byte>, blockSize: nat)
    requires blockSize > 0 && |file| % blockSize == 0 && |tail| < blockSize
    ensures Blocks(file + tail, blockSize) == Blocks(file, blockSize)
  {
    TailDivision(|file|, |tail|, blockSize);
    forall i | 0 <= i < |file| / blockSize
      ensures BlockAt(file + tail, blockSize, i) == BlockAt(file, blockSize, i)
    {
      BlockInside(i, |file| / blockSize, blockSize, |file|);
    }
  }

  /** Appending less than a block to a clean container only changes the length of its ignored tail:
      it opens the same, or fails to open the same, and every internal file reads the same. */
  lemma {:induction false} TailChangesNothing(file: seq<byte>, tail: seq<byte>, name: seq<byte>)
    requires |file| >= HEADER_SIZE && Word32At(file, 8) > 0
    requires |file| % Word32At(file, 8) == 0 && |tail| < Word32At(file, 8)
    ensures Opened(file).Err? ==> Opened(file + tail) == Err
    ensures Opened(file).Ok? ==>
              var c := Opened(file).value;
              var grown := c.(partialTail := |tail|);
              && Opened(file + tail) == Ok(grown)
              && ContainerOk(c) && FileBytes(file + tail, grown, name) == FileBytes(file, c, name)
  {
    var blockSize := Word32At(file, 8);
    TailOutsideBlocks(file, tail, blockSize);
    SameOpen(file, tail);
    OpenedIsOk(file);
    OpenedBlockSize(file);
    hide Opened;
    hide Blocks;
    if Opened(file).Ok? && ValidName(name) {
      SameEntry(Opened(file).value, |tail|, Value(name), 0);
    }
  }

  lemma {:induction false} OpenedBlockSize(file: seq<byte>)
    ensures Opened(file).Ok? ==> |file| >= HEADER_SIZE && Opened(file).value.blockSize == Word32At(file, 8)
  {
  }

  lemma {:induction false} SameHeader(file: seq<byte>, tail: seq<byte>)
    requires |file| >= HEADER_SIZE
    ensures var longer := file + tail;
            && HasMagic(longer) == HasMagic(file) && longer[6] == file[6] && longer[7] == file[7]
            && Word32At(longer, 8) == Word32At(file, 8) && Word32At(longer, 12) == Word32At(file, 12)
  {
    hide FromLittleEndian;
    var longer := file + tail;
    assert longer[..5] == file[..5] && longer[8..12] == file[8..12] && longer[12..16] == file[12..16];
  }

  lemma {:induction false} SameOpen(file: seq<byte>, tail: seq<byte>)
    requires |file| >= HEADER_SIZE && Word32At(file, 8) > 0
    requires |file| % Word32At(file, 8) == 0 && |tail| < Word32At(file, 8)
    ensures Opened(file).Err? ==> Opened(file + tail) == Err
    ensures Opened(file).Ok? ==> Opened(file + tail) == Ok(Opened(file).value.(partialTail := |tail|))
  {
    hide Locate;
    hide EntryCount;
    hide Candidates;
    hide Word32At;
    hide HasMagic;
    var blockSize, longer := Word32At(file, 8), file + tail;
    TailDivision(|file|, |tail|, blockSize);
    SameHeader(file, tail);
    WholeBlock(|file|, blockSize);
    assert longer[..blockSize] == file[..blockSize];
  }

  lemma {:induction false} WholeBlock(size: nat, blockSize: nat)
    requires blockSize > 0 && size > 0 && size % blockSize == 0
    ensures size >= blockSize
  {
  }

  lemma {:induction false} SameEntry(c: Container, tail: nat, word: nat, from: nat)
    requires ContainerOk(c) && from <= c.entryCount
    ensures FindEntry(c.(partialTail := tail), word, from) == FindEntry(c, word, from)
    decreases c.entryCount - from
  {
    if from < c.entryCount { SameEntry(c, tail, word, from + 1); }
  }
}
