/** Writing entries into guest memory, one `fd_readdir` call, and a guest's enumeration. */
module Readdir {
  import opened Wrappers
  import opened Arithmetic
  import opened Bytes
  import opened Dirents
  import opened DirentCaches
  import opened ReaddirSpec

  /** How much of the buffer the entries take, how many are counted, and how much of the last one
      is cut off. */
  method MaxDirents(ds: seq<Dirent>, bufLen: uint32) returns (bufToWrite: nat, direntCount: nat, truncatedLen: nat)
    requires AllEncodable(ds)
    ensures truncatedLen == TruncatedLen(ds, bufLen)
    ensures direntCount == FitCount(ds, bufLen) + if truncatedLen > 0 then 1 else 0
    ensures bufToWrite == BufToWrite(ds, bufLen) <= bufLen
  {
    hide FitCount;
    hide Size;
    var lenRemaining: nat := bufLen;
    bufToWrite, direntCount, truncatedLen := 0, 0, 0;
    assert ds[0..] == ds;
    NoSize(ds);
    for i := 0 to |ds|
      invariant direntCount == i && truncatedLen == 0
      invariant bufToWrite == Size(ds[..i]) && bufToWrite + lenRemaining == bufLen
      invariant FitCount(ds, bufLen) == i + FitCount(ds[i..], lenRemaining)
    {
      FitStep(ds, i, lenRemaining);
      if lenRemaining == 0 {
        break;
      }
      direntCount := direntCount + 1;
      var entryLen := DIRENT_SIZE + |ds[i].name|;
      if entryLen > lenRemaining {
        truncatedLen := if lenRemaining >= DIRENT_SIZE then DIRENT_SIZE else lenRemaining;
        bufToWrite := bufToWrite + truncatedLen;
        break;
      }
      lenRemaining := lenRemaining - entryLen;
      bufToWrite := bufToWrite + entryLen;
      SizeNext(ds, i);
    }
    FitEnd(ds, lenRemaining);
  }

  lemma {:induction false} NoSize(ds: seq<Dirent>)
    ensures Size(ds[..0]) == 0
  {
  }

  lemma {:induction false} FitEnd(ds: seq<Dirent>, bufLen: nat)
    ensures FitCount(ds[|ds|..], bufLen) == 0
  {
  }

  lemma {:induction false} FitStep(ds: seq<Dirent>, i: nat, bufLen: nat)
    requires i < |ds|
    ensures FitCount(ds[i..], bufLen) ==
            if EntryLen(ds[i]) > bufLen then 0 else 1 + FitCount(ds[i + 1..], bufLen - EntryLen(ds[i]))
  {
    assert ds[i..][0] == ds[i] && ds[i..][1..] == ds[i + 1..];
  }

  method PutBytes(mem: array<byte>, at: nat, bytes: seq<byte>)
    requires at + |bytes| <= mem.Length
    modifies mem
    ensures mem[..] == Splice(old(mem[..]), at, bytes)
  {
    forall k | 0 <= k < |bytes| {
      mem[at + k] := bytes[k];
    }
  }

  /** One 24-byte header. */
  method WriteDirent(mem: array<byte>, at: nat, next: nat, d: Dirent)
    requires at + DIRENT_SIZE <= mem.Length
    modifies mem
    ensures mem[..] == Splice(old(mem[..]), at, Header(d, next))
  {
    ghost var was := mem[..];
    PutBytes(mem, at, LittleEndian(next, 8));
    PutBytes(mem, at + 8, LittleEndian(d.ino, 8));
    SpliceAppend(was, at, LittleEndian(next, 8), LittleEndian(d.ino, 8));
    PutBytes(mem, at + 16, LittleEndian(|d.name|, 4));
    SpliceAppend(was, at, LittleEndian(next, 8) + LittleEndian(d.ino, 8), LittleEndian(|d.name|, 4));
    PutBytes(mem, at + 20, LittleEndian(d.filetype, 4));
    SpliceAppend(was, at, LittleEndian(next, 8) + LittleEndian(d.ino, 8) + LittleEndian(|d.name|, 4),
                 LittleEndian(d.filetype, 4));
  }

  /** The entries that fit, and the bare header of the next when there is room for it. */
  method WriteDirents(mem: array<byte>, base: nat, ds: seq<Dirent>, next: nat, direntCount: nat, truncatedLen: nat,
                      ghost bufLen: nat)
    requires base + BufToWrite(ds, bufLen) <= mem.Length
    requires truncatedLen == TruncatedLen(ds, bufLen)
    requires direntCount == FitCount(ds, bufLen) + if truncatedLen > 0 then 1 else 0
    modifies mem
    ensures |Written(ds, next, bufLen)| <= BufToWrite(ds, bufLen)
    ensures mem[..] == Splice(old(mem[..]), base, Written(ds, next, bufLen))
  {
    hide Header;
    hide FitCount;
    hide Written;
    hide BufToWrite;
    hide WrittenUpTo;
    hide Splice;
    ghost var was, k := mem[..], FitCount(ds, bufLen);
    var pos, count, skipName, dNext := 0, direntCount, -1, next;
    if truncatedLen > 0 {
      if truncatedLen < DIRENT_SIZE {
        count := count - 1;
      } else {
        skipName := direntCount - 1;
      }
    }
    assert count == WriteCount(ds, bufLen) && (count > k ==> skipName == k) && (count == k ==> skipName == -1);
    SpliceNothing(was, base);
    WrittenEnds(ds, next, bufLen);
    for i := 0 to count
      invariant dNext == next + i && pos == |WrittenUpTo(ds, next, bufLen, i)| && base + pos <= mem.Length
      invariant mem[..] == Splice(was, base, WrittenUpTo(ds, next, bufLen, i))
    {
      ghost var done := WrittenUpTo(ds, next, bufLen, i);
      WrittenNext(ds, next, bufLen, i);
      WriteDirent(mem, base + pos, dNext, ds[i]);
      SpliceAppend(was, base, done, Header(ds[i], next + i));
      dNext := dNext + 1;
      pos := pos + DIRENT_SIZE;
      if i != skipName {
        PutBytes(mem, base + pos, ds[i].name);
        SpliceAppend(was, base, done + Header(ds[i], next + i), ds[i].name);
        pos := pos + |ds[i].name|;
      } else {
        assert done + Header(ds[i], next + i) + [] == done + Header(ds[i], next + i);
      }
    }
  }

  predicate Listable(cache: DirentCache)
    reads cache, cache.f
  {
    cache.Valid() && AllEncodable(cache.All())
  }

  /** Guest memory after writing `bytes` at `buf`; writing nothing needs no room. */
  predicate Wrote(was: seq<byte>, mem: seq<byte>, buf: nat, bytes: seq<byte>) {
    if bytes == [] then mem == was else buf + |bytes| <= |was| && mem == Splice(was, buf, bytes)
  }

  /** The entries do not fit into memory at `buf`; writing nothing always fits. */
  predicate Overruns(ds: seq<Dirent>, bufLen: nat, buf: nat, limit: nat) {
    0 < BufToWrite(ds, bufLen) && buf + BufToWrite(ds, bufLen) > limit
  }

  /** The second half of a call: lay the entries out in guest memory. */
  method Emit(ds: seq<Dirent>, mem: array<byte>, buf: nat, bufLen: uint32, cookie: nat) returns (errno: Errno, bufused: nat)
    requires AllEncodable(ds)
    modifies mem
    ensures errno == if Overruns(ds, bufLen, buf, mem.Length) then Efault else Success
    ensures errno == Efault ==> mem[..] == old(mem[..])
    ensures errno == Success ==> bufused == Min(bufLen, Size(ds))
    ensures errno == Success ==> Wrote(old(mem[..]), mem[..], buf, Written(ds, cookie + 1, bufLen))
  {
    hide Written;
    hide FitCount;
    hide TruncatedLen;
    hide BufToWrite;
    hide Splice;
    hide Size;
    UsedLength(ds, bufLen);
    WrittenEnds(ds, cookie + 1, bufLen);
    errno, bufused := Success, 0;
    var bufToWrite, direntCount, truncatedLen := MaxDirents(ds, bufLen);
    if bufToWrite > 0 {
      if buf + bufToWrite > mem.Length {
        errno := Efault;
        return;
      }
      WriteDirents(mem, buf, ds, cookie + 1, direntCount, truncatedLen, bufLen);
      SpliceNothing(old(mem[..]), buf);
    }
    bufused := if truncatedLen > 0 then bufLen else bufToWrite;
  }

  /** Guest memory after a call: the entries at `buf` and then, over them if they overlap, the used
      length at `result`. */
  predicate Answered(was: seq<byte>, mem: seq<byte>, buf: nat, bytes: seq<byte>, result: nat, used: nat) {
    && (bytes == [] || buf + |bytes| <= |was|) && result + 4 <= |was|
    && mem == Splice(if bytes == [] then was else Splice(was, buf, bytes), result, LittleEndian(used, 4))
  }

  /** One call. It fails on a buffer too short for a header, on a cookie outside the window, when the
      directory fails, or on a buffer or a result outside memory; a result outside memory is noticed
      after the entries were written. Otherwise it reports the whole buffer as used unless the listing
      ends in it. */
  method FdReaddir(cache: DirentCache, mem: array<byte>, buf: nat, bufLen: uint32, cookie: nat, result: nat,
                   seekFails: bool, readFails: bool) returns (errno: Errno)
    requires Listable(cache)
    modifies cache, cache.f, mem
    ensures Listable(cache)
    ensures errno == Einval <==> bufLen < DIRENT_SIZE
    ensures errno == Enoent <==>
              bufLen >= DIRENT_SIZE && (cookie > old(cache.countRead) || 0 < cookie < old(cache.CacheStart()))
    ensures errno == Eio <==>
              && errno != Einval && errno != Enoent
              && ((cookie == 0 && old(cache.dirents).Some? && seekFails)
                  || (readFails && old(cache.ReadsOn(cookie, bufLen / DIRENT_SIZE + 2))))
    ensures errno == Eio ==> cookie == 0 || cache.CacheStart() == cookie <= cache.countRead
    ensures errno == Efault || errno == Success ==> cookie <= |cache.All()| && cache.CacheStart() == cookie
    ensures errno == Efault || errno == Success ==>
              (errno == Efault <==> Overruns(cache.All()[cookie..], bufLen, buf, mem.Length) || result + 4 > mem.Length)
    ensures errno == Einval || errno == Enoent || errno == Eio ==> mem[..] == old(mem[..])
    ensures errno == Efault && Overruns(cache.All()[cookie..], bufLen, buf, mem.Length) ==> mem[..] == old(mem[..])
    ensures errno == Efault && !Overruns(cache.All()[cookie..], bufLen, buf, mem.Length) ==>
              Wrote(old(mem[..]), mem[..], buf, Written(cache.All()[cookie..], cookie + 1, bufLen))
    ensures errno == Success ==>
              Answered(old(mem[..]), mem[..], buf, Written(cache.All()[cookie..], cookie + 1, bufLen), result,
                       Min(bufLen, Size(cache.All()[cookie..])))
    ensures errno == Success ==> cache.countRead >= cookie + FitCount(cache.All()[cookie..], bufLen)
  {
    hide Written;
    hide FitCount;
    hide TruncatedLen;
    hide BufToWrite;
    hide Size;
    hide AllEncodable;
    hide Wrote;
    hide Answered;
    hide DirentCache.WindowEnd;
    hide DirentCache.ReadsOn;
    if bufLen < DIRENT_SIZE {
      errno := Einval;
      return;
    }
    var maxDirEntries := bufLen / DIRENT_SIZE + 2;
    var ds;
    ds, errno := cache.Read(cookie, maxDirEntries, seekFails, readFails);
    if errno != Success {
      return;
    }
    ghost var rest := cache.All()[cookie..];
    RestPrefix(cache.All(), cookie, maxDirEntries);
    ReadEnough(rest, ds, bufLen, cookie + 1);
    errno := Deliver(ds, mem, buf, bufLen, cookie, result);
  }

  /** The entries and then the used length, written to guest memory. */
  method Deliver(ds: seq<Dirent>, mem: array<byte>, buf: nat, bufLen: uint32, cookie: nat, result: nat) returns (errno: Errno)
    requires AllEncodable(ds)
    modifies mem
    ensures errno == if Overruns(ds, bufLen, buf, mem.Length) || result + 4 > mem.Length then Efault else Success
    ensures Overruns(ds, bufLen, buf, mem.Length) ==> mem[..] == old(mem[..])
    ensures errno == Efault && !Overruns(ds, bufLen, buf, mem.Length) ==>
              Wrote(old(mem[..]), mem[..], buf, Written(ds, cookie + 1, bufLen))
    ensures errno == Success ==>
              Answered(old(mem[..]), mem[..], buf, Written(ds, cookie + 1, bufLen), result, Min(bufLen, Size(ds)))
  {
    hide Written;
    hide Overruns;
    hide Wrote;
    hide Answered;
    hide Splice;
    hide Size;
    hide AllEncodable;
    hide LittleEndian;
    var bufused;
    errno, bufused := Emit(ds, mem, buf, bufLen, cookie);
    if errno != Success {
      return;
    }
    if result + 4 > mem.Length {
      errno := Efault;
      return;
    }
    ghost var mid := mem[..];
    PutBytes(mem, result, LittleEndian(bufused, 4));
    ThenResult(old(mem[..]), mid, mem[..], buf, Written(ds, cookie + 1, bufLen), result, bufused);
  }

  lemma {:induction false} ThenResult(was: seq<byte>, mid: seq<byte>, mem: seq<byte>, buf: nat, bytes: seq<byte>, result: nat, used: nat)
    requires Wrote(was, mid, buf, bytes) && result + 4 <= |was| == |mid|
    requires mem == Splice(mid, result, LittleEndian(used, 4))
    ensures Answered(was, mem, buf, bytes, result, used)
  {}

  /** What a guest parses out of its buffer after a call: the entries that fit, in order. */
  lemma {:induction false} GuestSees(rest: seq<Dirent>, next: nat, bufLen: nat, was: seq<byte>, mem: seq<byte>, buf: nat)
    requires AllEncodable(rest)
    requires next + |rest| <= MAX_UINT64 && buf + bufLen <= |was|
    requires Wrote(was, mem, buf, Written(rest, next, bufLen))
    ensures |mem| == |was|
    ensures Parse(mem[buf..buf + Min(bufLen, Size(rest))]) == Numbered(rest[..FitCount(rest, bufLen)], next)
  {
    hide Written;
    hide FitCount;
    hide BufToWrite;
    hide TruncatedLen;
    hide Parse;
    hide Numbered;
    var bytes, used := Written(rest, next, bufLen), Min(bufLen, Size(rest));
    UsedLength(rest, bufLen);
    WrittenEnds(rest, next, bufLen);
    if bytes != [] {
      SpliceRead(was, buf, bytes);
    }
    assert mem[buf..buf + used] == bytes + mem[buf + |bytes|..buf + used];
    ParseWritten(rest, next, bufLen, mem[buf + |bytes|..buf + used]);
  }

  lemma {:induction false} SubSlice(s: seq<byte>, at: nat, from: nat, to: nat)
    requires from <= to && at + to <= |s|
    ensures s[at..][from..to] == s[at + from..at + to]
  {
    forall i | 0 <= i < to - from ensures s[at..][from..to][i] == s[at + from..at + to][i] {}
  }

  /** Of an entry that does not fit whole the guest still finds the header behind the ones that do, as soon
      as the header fits. */
  lemma {:induction false} HeaderOfTheNext(rest: seq<Dirent>, next: nat, bufLen: nat, was: seq<byte>, mem: seq<byte>, buf: nat)
    requires AllEncodable(rest) && next + |rest| <= MAX_UINT64 && buf + bufLen <= |was|
    requires Wrote(was, mem, buf, Written(rest, next, bufLen))
    ensures var k := FitCount(rest, bufLen);
            var at := buf + Size(rest[..k]);
            k < |rest| && at + 24 <= buf + bufLen ==>
              && |mem| == |was|
              && FromLittleEndian(mem[at..at + 8]) == next + k
              && FromLittleEndian(mem[at + 8..at + 16]) == rest[k].ino
              && FromLittleEndian(mem[at + 16..at + 20]) == |rest[k].name|
              && FromLittleEndian(mem[at + 20..at + 24]) == rest[k].filetype
  {
    hide FitCount;
    hide Entries;
    hide Header;
    hide FromLittleEndian;
    var k := FitCount(rest, bufLen);
    var at := buf + Size(rest[..k]);
    if k < |rest| && at + 24 <= buf + bufLen {
      var done, header := Entries(rest[..k], next), Header(rest[k], next + k);
      SpliceRead(was, buf, done + header);
      var s := mem[at..];
      assert mem[buf..buf + |done + header|] == done + header;
      assert s[..24] == header by {
        forall i | 0 <= i < 24 ensures s[i] == header[i] { assert mem[buf..buf + |done + header|][|done| + i] == header[i]; }
      }
      assert s == header + s[24..];
      HeaderFields(rest[k], next + k, s[24..]);
      SubSlice(mem, at, 0, 8);
      SubSlice(mem, at, 8, 16);
      SubSlice(mem, at, 16, 20);
      SubSlice(mem, at, 20, 24);
    }
  }

  /** A buffer that holds the next entry makes progress; one that is not filled saw the rest. */
  lemma {:induction false} Progress(rest: seq<Dirent>, bufLen: nat)
    requires rest != [] ==> EntryLen(rest[0]) <= bufLen
    ensures rest != [] ==> FitCount(rest, bufLen) > 0
    ensures Size(rest) < bufLen ==> FitCount(rest, bufLen) == |rest|
    ensures Size(rest) >= bufLen > 0 ==> rest != []
  {
    FitAll(rest, bufLen);
  }

  lemma {:induction false} NoneNumbered(all: seq<Dirent>)
    ensures Numbered(all[..0], 1) == []
  {}

  lemma {:induction false} NumberedJoin(all: seq<Dirent>, a: nat, b: nat)
    requires a <= b <= |all|
    ensures Numbered(all[..a], 1) + Numbered(all[a..][..b - a], a + 1) == Numbered(all[..b], 1)
  {
  }

  /** Reading back a result that does not overlap the buffer. */
  lemma {:induction false} ResultRead(was: seq<byte>, mem: seq<byte>, buf: nat, bufLen: nat, bytes: seq<byte>, result: nat, used: nat)
    requires Answered(was, mem, buf, bytes, result, used) && used < WORD32
    requires |bytes| <= bufLen && buf + bufLen <= |was| && (result + 4 <= buf || buf + bufLen <= result)
    ensures |mem| == |was| && FromLittleEndian(mem[result..result + 4]) == used
    ensures var mid := if bytes == [] then was else Splice(was, buf, bytes);
            Wrote(was, mid, buf, bytes) && |mid| == |was| && mem[buf..buf + bufLen] == mid[buf..buf + bufLen]
  {
    hide FromLittleEndian;
    hide LittleEndian;
    hide Splice;
    var mid := if bytes == [] then was else Splice(was, buf, bytes);
    SpliceRead(mid, result, LittleEndian(used, 4));
    SpliceOutside(mid, result, LittleEndian(used, 4), buf, buf + bufLen);
    FourBytes(used);
  }

  lemma {:induction false} FourBytes(n: nat)
    requires n < WORD32
    ensures FromLittleEndian(LittleEndian(n, 4)) == n
  {
    assert Pow256(4) == WORD32;
    LittleEndianRoundTrip(n, 4);
  }

  /** What the guest finds in memory after a call that succeeded. */
  lemma {:induction false} GuestReads(rest: seq<Dirent>, next: nat, bufLen: uint32, was: seq<byte>, mem: seq<byte>, buf: nat, result: nat)
    requires AllEncodable(rest) && next + |rest| <= MAX_UINT64 && buf + bufLen <= |was|
    requires Answered(was, mem, buf, Written(rest, next, bufLen), result, Min(bufLen, Size(rest)))
    requires result + 4 <= buf || buf + bufLen <= result
    ensures var used := Min(bufLen, Size(rest));
            && |mem| == |was| && FromLittleEndian(mem[result..result + 4]) == used
            && Parse(mem[buf..buf + used]) == Numbered(rest[..FitCount(rest, bufLen)], next)
  {
    hide Written;
    hide FitCount;
    hide BufToWrite;
    hide TruncatedLen;
    hide Parse;
    hide Wrote;
    hide Answered;
    hide Splice;
    hide Size;
    hide FromLittleEndian;
    var bytes, used := Written(rest, next, bufLen), Min(bufLen, Size(rest));
    UsedLength(rest, bufLen);
    WrittenEnds(rest, next, bufLen);
    ResultRead(was, mem, buf, bufLen, bytes, result, used);
    var mid := if bytes == [] then was else Splice(was, buf, bytes);
    GuestSees(rest, next, bufLen, was, mid, buf);
    SliceTake(mem, buf, buf + bufLen, used);
    SliceTake(mid, buf, buf + bufLen, used);
  }

  /** One call of a guest that asks at a position it may ask at: no error, and what it parses. */
  method ListOnce(cache: DirentCache, mem: array<byte>, buf: nat, bufLen: uint32, result: nat, cookie: nat)
    returns (errno: Errno, used: nat, found: seq<Listed>)
    requires Listable(cache) && DIRENT_SIZE <= bufLen && buf + bufLen <= mem.Length
    requires result + 4 <= mem.Length && (result + 4 <= buf || buf + bufLen <= result)
    requires cookie == 0 || cache.CacheStart() <= cookie <= cache.countRead
    modifies cache, cache.f, mem
    ensures Listable(cache) && errno == Success && cookie <= |cache.All()| && cache.CacheStart() == cookie
    ensures var rest := cache.All()[cookie..];
            && used == Min(bufLen, Size(rest))
            && found == Numbered(rest[..FitCount(rest, bufLen)], cookie + 1)
            && cache.countRead >= cookie + FitCount(rest, bufLen)
  {
    hide Written;
    hide FitCount;
    hide BufToWrite;
    hide TruncatedLen;
    hide Parse;
    hide Wrote;
    hide Answered;
    hide Splice;
    hide Size;
    hide AllEncodable;
    hide FromLittleEndian;
    hide DirentCache.WindowEnd;
    hide DirentCache.ReadsOn;
    ghost var was := mem[..];
    errno := FdReaddir(cache, mem, buf, bufLen, cookie, result, false, false);
    ghost var rest := cache.All()[cookie..];
    UsedLength(rest, bufLen);
    RestPrefix(cache.All(), cookie, 0);
    assert errno == Success;
    GuestReads(rest, cookie + 1, bufLen, was, mem[..], buf, result);
    assert mem[..][result..result + 4] == mem[result..result + 4];
    used := FromLittleEndian(mem[result..result + 4]);
    assert mem[..][buf..buf + used] == mem[buf..buf + used];
    found := Parse(mem[buf..buf + used]);
  }

  lemma {:induction false} NumberedListing(ino: uint64, files: seq<Dirent>)
    ensures var seen := Numbered(DotEntries(ino) + files, 1);
            && |seen| == 2 + |files|
            && seen[0] == Listed(1, Dirent([46], ino, 3)) && seen[1] == Listed(2, Dirent([46, 46], 0, 3))
            && forall k :: 0 <= k < |files| ==> seen[2 + k] == Listed(3 + k, files[k])
  {}

  /** A guest's enumeration: call with the last `d_next` as cookie until the buffer is not filled.
      With room for the longest entry, and the used length stored beside the buffer, it ends, never sees
      an error, and lists `.`, `..` and every file exactly once and in order, whatever was read through
      the same cache before. */
  method ListDirectory(cache: DirentCache, mem: array<byte>, buf: nat, bufLen: uint32, result: nat)
    returns (errno: Errno, seen: seq<Listed>)
    requires Listable(cache) && DIRENT_SIZE <= bufLen && buf + bufLen <= mem.Length
    requires result + 4 <= mem.Length && (result + 4 <= buf || buf + bufLen <= result)
    requires forall k :: 0 <= k < |cache.All()| ==> EntryLen(cache.All()[k]) <= bufLen
    modifies cache, cache.f, mem
    ensures errno == Success && |seen| == 2 + |cache.f.files|
    ensures seen[0] == Listed(1, Dirent([46], cache.f.ino, 3)) && seen[1] == Listed(2, Dirent([46, 46], 0, 3))
    ensures forall k :: 0 <= k < |cache.f.files| ==> seen[2 + k] == Listed(3 + k, cache.f.files[k])
  {
    hide FitCount;
    hide Size;
    hide AllEncodable;
    hide Numbered;
    hide DotEntries;
    NoneNumbered(cache.All());
    var cookie, used := 0, bufLen;
    seen := [];
    errno := Success;
    while used == bufLen
      invariant Listable(cache) && errno == Success && cookie <= |cache.All()|
      invariant cookie == 0 || cache.CacheStart() <= cookie <= cache.countRead
      invariant seen == Numbered(cache.All()[..cookie], 1)
      invariant used <= bufLen && (used < bufLen ==> cookie == |cache.All()|)
      decreases |cache.All()| - cookie, used
    {
      ghost var rest := cache.All()[cookie..];
      var found;
      errno, used, found := ListOnce(cache, mem, buf, bufLen, result, cookie);
      Progress(rest, bufLen);
      NumberedJoin(cache.All(), cookie, cookie + |found|);
      seen := seen + found;
      if found != [] {
        cookie := found[|found| - 1].next;
      }
    }
    assert cache.All()[..cookie] == cache.All();
    NumberedListing(cache.f.ino, cache.f.files);
  }
}
