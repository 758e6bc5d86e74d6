/** `fd_readdir` (imports/wasi_snapshot_preview1/fs.go:862-1031): how many entries a buffer takes,
    writing them into guest memory, and the enumeration a guest builds on it. */
module ReaddirSpec {
  import opened Wrappers
  import opened Arithmetic
  import opened Bytes
  import opened Dirents

  /** The number of leading entries that fit whole. */
  function FitCount(ds: seq<Dirent>, bufLen: nat): (k: nat)
    ensures k <= |ds| && Size(ds[..k]) <= bufLen
    ensures k < |ds| ==> Size(ds[..k]) + EntryLen(ds[k]) > bufLen
    decreases |ds|
  {
    if ds == [] || EntryLen(ds[0]) > bufLen then 0
    else
      var k := FitCount(ds[1..], bufLen - EntryLen(ds[0]));
      assert ds[..k + 1][1..] == ds[1..][..k];
      k + 1
  }

  /** The bytes spent on an entry that does not fit: at most a header. */
  function TruncatedLen(ds: seq<Dirent>, bufLen: nat): (n: nat)
    ensures n <= DIRENT_SIZE && n <= bufLen
  {
    var k := FitCount(ds, bufLen);
    if k == |ds| then 0 else Min(DIRENT_SIZE, bufLen - Size(ds[..k]))
  }

  /** What one call writes: the entries that fit, then the header of the next one if that fits. */
  function Written(ds: seq<Dirent>, next: nat, bufLen: nat): seq<byte> {
    var k := FitCount(ds, bufLen);
    Entries(ds[..k], next) + if k < |ds| && TruncatedLen(ds, bufLen) == DIRENT_SIZE then Header(ds[k], next + k) else []
  }

  /** The memory one call needs, counting a cut-off entry up to a header. */
  function BufToWrite(ds: seq<Dirent>, bufLen: nat): nat {
    Size(ds[..FitCount(ds, bufLen)]) + TruncatedLen(ds, bufLen)
  }

  function Splice(s: seq<byte>, at: nat, bytes: seq<byte>): (r: seq<byte>)
    requires at + |bytes| <= |s|
    ensures |r| == |s|
  {
    s[..at] + bytes + s[at + |bytes|..]
  }

  lemma {:induction false} SpliceAppend(s: seq<byte>, at: nat, a: seq<byte>, b: seq<byte>)
    requires at + |a| + |b| <= |s|
    ensures Splice(Splice(s, at, a), at + |a|, b) == Splice(s, at, a + b)
  {
  }

  lemma {:induction false} SpliceNothing(s: seq<byte>, at: nat)
    requires at <= |s|
    ensures Splice(s, at, []) == s
  {
  }

  lemma {:induction false} SpliceRead(s: seq<byte>, at: nat, bytes: seq<byte>)
    requires at + |bytes| <= |s|
    ensures Splice(s, at, bytes)[at..at + |bytes|] == bytes
  {
  }

  lemma {:induction false} SpliceOutside(s: seq<byte>, at: nat, bytes: seq<byte>, from: nat, to: nat)
    requires at + |bytes| <= |s| && from <= to <= |s| && (to <= at || at + |bytes| <= from)
    ensures Splice(s, at, bytes)[from..to] == s[from..to]
  {
    forall k | from <= k < to ensures Splice(s, at, bytes)[k] == s[k] {}
  }

  /** A prefix that already overflows the buffer decides what fits. */
  lemma {:induction false} FitPrefix(ds: seq<Dirent>, all: seq<Dirent>, bufLen: nat)
    requires ds <= all && (ds == all || Size(ds) > bufLen)
    ensures FitCount(ds, bufLen) == FitCount(all, bufLen)
    decreases |ds|
  {
    if ds != [] && ds != all && EntryLen(ds[0]) <= bufLen {
      FitPrefix(ds[1..], all[1..], bufLen - EntryLen(ds[0]));
    }
  }

  lemma {:induction false} FitAll(ds: seq<Dirent>, bufLen: nat)
    ensures FitCount(ds, bufLen) == |ds| <==> Size(ds) <= bufLen
    decreases |ds|
  {
    if ds != [] && EntryLen(ds[0]) <= bufLen {
      FitAll(ds[1..], bufLen - EntryLen(ds[0]));
    }
  }

  lemma {:induction false} WrittenPrefix(ds: seq<Dirent>, all: seq<Dirent>, next: nat, bufLen: nat)
    requires ds <= all && (ds == all || Size(ds) > bufLen)
    ensures Written(ds, next, bufLen) == Written(all, next, bufLen)
    ensures BufToWrite(ds, bufLen) == BufToWrite(all, bufLen)
    ensures TruncatedLen(ds, bufLen) == TruncatedLen(all, bufLen)
  {
    hide Header;
    hide Entries;
    hide Size;
    hide FitCount;
    if ds != all {
      FitPrefix(ds, all, bufLen);
      FitAll(ds, bufLen);
      var k := FitCount(ds, bufLen);
      assert ds[..k] == all[..k];
    }
  }

  /** `bufLen / 24 + 2` entries overflow the buffer, as no entry is shorter than 25 bytes: reading
      that many is enough to tell whether the listing ends inside the buffer. */
  lemma {:induction false} EnoughEntries(rest: seq<Dirent>, bufLen: nat)
    requires AllEncodable(rest)
    ensures var ds := rest[..Min(bufLen / DIRENT_SIZE + 2, |rest|)]; ds == rest || Size(ds) > bufLen
  {
    SizeAtLeast(rest[..Min(bufLen / DIRENT_SIZE + 2, |rest|)]);
  }

  /** The used length is the whole buffer exactly when the rest of the listing fills it. */
  lemma {:induction false} UsedLength(rest: seq<Dirent>, bufLen: nat)
    ensures (if TruncatedLen(rest, bufLen) > 0 then bufLen else BufToWrite(rest, bufLen)) == Min(bufLen, Size(rest))
    ensures BufToWrite(rest, bufLen) <= Min(bufLen, Size(rest))
  {
    hide Entries;
    hide Header;
    var k := FitCount(rest, bufLen);
    FitAll(rest, bufLen);
    if k == |rest| {
      assert rest[..k] == rest;
    }
  }

  lemma {:induction false} RestPrefix(all: seq<Dirent>, pos: nat, n: nat)
    requires pos <= |all|
    ensures all[pos..Min(pos + n, |all|)] == all[pos..][..Min(n, |all[pos..]|)]
    ensures AllEncodable(all) ==> AllEncodable(all[pos..]) && AllEncodable(all[pos..Min(pos + n, |all|)])
  {
  }

  /** What is written and used depends on the whole rest of the listing, not on how much of it was
      read ahead. */
  lemma {:induction false} ReadEnough(rest: seq<Dirent>, ds: seq<Dirent>, bufLen: nat, next: nat)
    requires AllEncodable(rest)
    requires ds == rest[..Min(bufLen / DIRENT_SIZE + 2, |rest|)]
    ensures Written(ds, next, bufLen) == Written(rest, next, bufLen)
    ensures BufToWrite(ds, bufLen) == BufToWrite(rest, bufLen)
    ensures Min(bufLen, Size(ds)) == Min(bufLen, Size(rest))
    ensures FitCount(ds, bufLen) == FitCount(rest, bufLen) <= |ds|
  {
    hide Written;
    hide FitCount;
    hide BufToWrite;
    hide TruncatedLen;
    EnoughEntries(rest, bufLen);
    WrittenPrefix(ds, rest, next, bufLen);
    FitPrefix(ds, rest, bufLen);
    SizePrefix(rest, |ds|);
  }

  /** A guest that parses the used part of its buffer reads exactly the entries that fit, whatever
      the bytes after the written ones are. */
  lemma {:induction false} ParseWritten(ds: seq<Dirent>, next: nat, bufLen: nat, stale: seq<byte>)
    requires AllEncodable(ds) && next + |ds| <= MAX_UINT64
    requires |Written(ds, next, bufLen)| + |stale| == Min(bufLen, Size(ds))
    ensures Parse(Written(ds, next, bufLen) + stale) == Numbered(ds[..FitCount(ds, bufLen)], next)
  {
    hide Parse;
    hide Header;
    hide Entries;
    hide FitCount;
    var k := FitCount(ds, bufLen);
    FitAll(ds, bufLen);
    if k == |ds| {
      assert ds[..k] == ds;
      assert Written(ds, next, bufLen) + stale == Entries(ds[..k], next) + [];
      ParseEntries(ds[..k], next, []);
      ParseShort([]);
    } else if TruncatedLen(ds, bufLen) == DIRENT_SIZE {
      var rest := Header(ds[k], next + k) + stale;
      assert Written(ds, next, bufLen) + stale == Entries(ds[..k], next) + rest;
      ParseEntries(ds[..k], next, rest);
      ParseIncomplete(ds[k], next + k, stale);
    } else {
      assert Written(ds, next, bufLen) + stale == Entries(ds[..k], next) + stale;
      ParseEntries(ds[..k], next, stale);
      ParseShort(stale);
    }
    assert Numbered(ds[..k], next) + [] == Numbered(ds[..k], next);
  }

  lemma {:induction false} EmptyEntries(ds: seq<Dirent>, next: nat)
    ensures Entries(ds[..0], next) == [] && Size(ds[..0]) == 0
  {
  }

  /** The entries written at least in part: those that fit, and one more if its header fits. */
  function WriteCount(ds: seq<Dirent>, bufLen: nat): nat {
    var k := FitCount(ds, bufLen);
    if k < |ds| && TruncatedLen(ds, bufLen) == DIRENT_SIZE then k + 1 else k
  }

  /** The bytes written once `i` entries are. */
  function WrittenUpTo(ds: seq<Dirent>, next: nat, bufLen: nat, i: nat): seq<byte>
    requires i <= WriteCount(ds, bufLen)
  {
    if i <= FitCount(ds, bufLen) then Entries(ds[..i], next) else Written(ds, next, bufLen)
  }

  lemma {:induction false} WrittenEnds(ds: seq<Dirent>, next: nat, bufLen: nat)
    ensures WrittenUpTo(ds, next, bufLen, 0) == []
    ensures WrittenUpTo(ds, next, bufLen, WriteCount(ds, bufLen)) == Written(ds, next, bufLen)
    ensures |Written(ds, next, bufLen)| <= BufToWrite(ds, bufLen)
  {
    hide Header;
    EmptyEntries(ds, next);
    var k := FitCount(ds, bufLen);
    assert Entries(ds[..k], next) + [] == Entries(ds[..k], next);
  }

  /** Each entry appends its header and, unless it is the cut-off one, its name; there is room. */
  lemma {:induction false} WrittenNext(ds: seq<Dirent>, next: nat, bufLen: nat, i: nat)
    requires i < WriteCount(ds, bufLen)
    ensures WrittenUpTo(ds, next, bufLen, i + 1) ==
            WrittenUpTo(ds, next, bufLen, i) + Header(ds[i], next + i) +
            if i == FitCount(ds, bufLen) then [] else ds[i].name
    ensures |WrittenUpTo(ds, next, bufLen, i + 1)| <= BufToWrite(ds, bufLen)
  {
    hide Header;
    hide Entries;
    hide FitCount;
    var k := FitCount(ds, bufLen);
    if i < k {
      EntriesNext(ds, i, next);
      var done := Entries(ds[..i], next);
      assert done + (Header(ds[i], next + i) + ds[i].name) == done + Header(ds[i], next + i) + ds[i].name;
      assert ds[..i + 1] == ds[..k][..i + 1];
      SizePrefix(ds[..k], i + 1);
    } else {
      WrittenEnds(ds, next, bufLen);
      assert Written(ds, next, bufLen) + [] == Written(ds, next, bufLen);
    }
  }

  lemma {:induction false} ParseShort(s: seq<byte>)
    requires |s| < DIRENT_SIZE
    ensures Parse(s) == []
  {
  }
}
