/** The sliding window of directory entries behind `fd_readdir` (internal/sys/fs.go:94-251). The
    directory itself does not change, and a `Readdir` or `Seek` that fails does not move in it. */
module DirentCaches {
  import opened Wrappers
  import opened Arithmetic
  import opened Bytes
  import opened Dirents

  datatype Errno = Success | Einval | Enoent | Efault | Eio

  lemma {:induction false} SliceTake<T>(s: seq<T>, from: nat, to: nat, k: nat)
    requires from <= to <= |s| && k <= to - from
    ensures s[from..to][..k] == s[from..from + k]
  {
  }

  lemma {:induction false} SliceDrop<T>(s: seq<T>, from: nat, to: nat, k: nat)
    requires from <= to <= |s| && k <= to - from
    ensures s[from..to][k..] == s[from + k..to]
  {
  }

  lemma {:induction false} DotsThenFiles<T>(dots: seq<T>, files: seq<T>, k: nat)
    requires k <= |files|
    ensures (dots + files)[0..|dots| + k] == dots + files[0..k]
  {
  }

  /** An open directory: its inode, an unchanging listing and the offset the next `Readdir` starts
      from. */
  class Directory {
    const ino: uint64
    const files: seq<Dirent>
    var offset: nat

    constructor (ino: uint64, files: seq<Dirent>)
      ensures this.ino == ino && this.files == files && offset == 0
    {
      this.ino := ino;
      this.files := files;
      offset := 0;
    }

    /** `fails` says whether the host reports an error. */
    method Readdir(n: nat, fails: bool) returns (ds: seq<Dirent>, errno: Errno)
      requires offset <= |files|
      modifies this
      ensures errno == if fails then Eio else Success
      ensures offset == if fails then old(offset) else Min(old(offset) + n, |files|)
      ensures ds == files[old(offset)..offset]
    {
      if fails { return [], Eio; }
      errno := Success;
      var end := Min(offset + n, |files|);
      ds := files[offset..end];
      offset := end;
    }

    method Rewind(fails: bool) returns (errno: Errno)
      modifies this
      ensures errno == if fails then Eio else Success
      ensures offset == if fails then old(offset) else 0
    {
      if fails { return Eio; }
      offset := 0;
      errno := Success;
    }
  }

  const FILETYPE_DIRECTORY: uint32 := 3

  /** "." with the directory's inode, and ".." without one. */
  function DotEntries(ino: uint64): (ds: seq<Dirent>)
    ensures |ds| == 2 && AllEncodable(ds)
  {
    [Dirent([46], ino, FILETYPE_DIRECTORY), Dirent([46, 46], 0, FILETYPE_DIRECTORY)]
  }

  class DirentCache {
    const f: Directory
    const dotEntries: seq<Dirent>
    /** `None` before the first read and after a rewind; `Some([])` when every entry was consumed. */
    var dirents: Option<seq<Dirent>>
    var countRead: nat
    var eof: bool

    /** The whole listing: the two dot entries, then the files. */
    function All(): seq<Dirent> { dotEntries + f.files }

    /** The index in the listing of the first cached entry. */
    function CacheStart(): int
      reads this
    {
      if dirents.Some? then countRead - |dirents.value| else 0
    }

    /** The cache holds a window of the listing that ends where the directory was read up to. */
    predicate Valid()
      reads this, f
    {
      && dotEntries == DotEntries(f.ino) && |All()| < WORD32 && f.offset <= |f.files|
      && (dirents.None? ==> countRead == 0 && f.offset == 0)
      && (dirents.Some? ==>
            && countRead == 2 + f.offset
            && |dirents.value| <= countRead
            && dirents.value == All()[CacheStart()..countRead]
            && (eof ==> f.offset == |f.files|))
    }

    constructor (f: Directory)
      requires |f.files| + 2 < WORD32 && f.offset == 0
      ensures Valid() && this.f == f
      ensures All() == [Dirent([46], f.ino, 3), Dirent([46, 46], 0, 3)] + f.files
      ensures dirents == None && countRead == 0
    {
      this.f := f;
      dotEntries := DotEntries(f.ino);
      dirents := None;
      countRead := 0;
      eof := false;
    }

    /** Where the window ends after reading `n > 0` entries from `pos`. */
    function WindowEnd(pos: nat, n: nat): nat
      reads this
    {
      if pos == 0 then Min(|All()|, 2 + (n - 2) % WORD32) else Max(countRead, Min(pos + n, |All()|))
    }

    method CachedDirents(n: uint32) returns (ds: seq<Dirent>)
      requires Valid() && dirents.Some?
      ensures ds == dirents.value[..Min(n, |dirents.value|)]
    {
      var direntCount := |dirents.value|;
      if direntCount == 0 {
        ds := [];
      } else if direntCount > n {
        ds := dirents.value[..n];
      } else {
        ds := dirents.value;
      }
    }

    /** The first read, or the first after a rewind: the dot entries and `n - 2` files. A failure leaves
        the dot entries cached. */
    method Populate(n: uint32, fails: bool) returns (ds: seq<Dirent>, errno: Errno)
      requires Valid() && dirents.None? && n > 0
      modifies this, f
      ensures Valid() && dirents.Some? && CacheStart() == 0
      ensures errno == if fails && n != 2 then Eio else Success
      ensures errno == Eio ==> ds == [] && countRead == 2
      ensures errno == Success ==> countRead == old(WindowEnd(0, n))
      ensures errno == Success ==> ds == if n == 2 then [] else All()[..Min(n, |All()|)]
    {
      errno := Success;
      dirents := Some(dotEntries);
      countRead := 2;
      eof := false;
      var countToRead := (n - 2) % WORD32;
      assert countToRead == if n >= 2 then n - 2 else WORD32 - 1;
      if countToRead == 0 {
        ds := [];
        return;
      }
      DotsThenFiles(dotEntries, f.files, 0);
      var more;
      more, errno := f.Readdir(countToRead, fails);
      if errno != Success {
        return [], errno;
      }
      if |more| > 0 {
        eof := |more| < countToRead;
        dirents := Some(dotEntries + more);
        countRead := countRead + |more|;
      }
      DotsThenFiles(dotEntries, f.files, |more|);
      ds := CachedDirents(n);
      SliceTake(All(), 0, countRead, |ds|);
    }

    /** Read on until the window holds `n` entries or the directory ends. */
    method Extend(n: uint32, fails: bool) returns (errno: Errno)
      requires Valid() && dirents.Some? && n > 0
      modifies this, f
      ensures Valid() && dirents.Some? && CacheStart() == old(CacheStart())
      ensures errno == if fails && CacheStart() + n > old(countRead) && !old(eof) then Eio else Success
      ensures countRead == if errno == Eio then old(countRead) else Max(old(countRead), Min(CacheStart() + n, |All()|))
    {
      errno := Success;
      ghost var start := CacheStart();
      var countToRead := n - |dirents.value|;
      if countToRead > 0 && !eof {
        ghost var from := countRead;
        var more;
        more, errno := f.Readdir(countToRead, fails);
        if errno != Success { return; }
        assert more == All()[from..from + |more|];
        if |more| > 0 {
          eof := |more| < countToRead;
          dirents := Some(dirents.value + more);
          countRead := countRead + |more|;
          assert All()[start..from] + All()[from..countRead] == All()[start..countRead];
        }
      }
    }

    /** Forget the entries before `pos`. */
    method DropBefore(pos: nat)
      requires Valid() && dirents.Some? && CacheStart() <= pos <= countRead
      modifies this
      ensures Valid() && dirents.Some? && CacheStart() == pos && countRead == old(countRead) && eof == old(eof)
    {
      var posInCache := pos - (countRead - |dirents.value|);
      SliceDrop(All(), CacheStart(), countRead, posInCache);
      if posInCache != 0 {
        if |dirents.value| == posInCache {
          dirents := Some([]);
        } else {
          dirents := Some(dirents.value[posInCache..]);
        }
      }
    }

    /** Slide the window to `pos` and fill it up to `n` entries. */
    method Slide(pos: nat, n: uint32, fails: bool) returns (ds: seq<Dirent>, errno: Errno)
      requires Valid() && dirents.Some? && 0 < pos && CacheStart() <= pos <= countRead && n > 0
      modifies this, f
      ensures Valid() && dirents.Some? && CacheStart() == pos
      ensures errno == if fails && pos + n > old(countRead) && !old(eof) then Eio else Success
      ensures errno == Eio ==> ds == [] && countRead == old(countRead)
      ensures errno == Success ==> countRead == Max(old(countRead), Min(pos + n, |All()|))
      ensures errno == Success ==> ds == All()[pos..Min(pos + n, |All()|)]
    {
      DropBefore(pos);
      errno := Extend(n, fails);
      if errno != Success {
        return [], errno;
      }
      ds := CachedDirents(n);
      SliceTake(All(), pos, countRead, |ds|);
    }

    /** Reading `n` entries from `pos`, inside the window, asks the directory for more. */
    predicate ReadsOn(pos: nat, n: nat)
      reads this
    {
      if pos == 0 then n != 0 && n != 2 else pos + n > countRead && !eof && n > 0
    }

    /** The part of `Read` after a rewind: nothing is cached at position 0. */
    method ReadFrom(pos: nat, n: uint32, fails: bool) returns (ds: seq<Dirent>, errno: Errno)
      requires Valid() && pos <= countRead && (pos == 0 ==> dirents.None?) && n > 0
      modifies this, f
      ensures Valid()
      ensures errno == Enoent <==> 0 < pos < old(CacheStart())
      ensures errno == Enoent ==> ds == [] && dirents == old(dirents) && countRead == old(countRead)
      ensures errno != Enoent ==> errno == if fails && old(ReadsOn(pos, n)) then Eio else Success
      ensures errno == Eio ==>
                ds == [] && dirents.Some? && CacheStart() == pos && countRead == if pos == 0 then 2 else old(countRead)
      ensures errno == Success ==> dirents.Some? && CacheStart() == pos && countRead == old(WindowEnd(pos, n))
      ensures errno == Success ==> pos <= |All()| && pos + |ds| <= countRead
      ensures errno == Success ==> ds == if n == 2 && pos == 0 then [] else All()[pos..Min(pos + n, |All()|)]
    {
      if dirents.None? {
        ds, errno := Populate(n, fails);
        return;
      }
      if pos < countRead - |dirents.value| {
        return [], Enoent;
      }
      ds, errno := Slide(pos, n, fails);
    }

    /** Up to `n` entries from `pos`. A position outside the window is refused, except 0, which
        rewinds; reading exactly two entries from the start returns none. When the directory fails,
        `pos` can still be read afterwards. */
    method Read(pos: nat, n: uint32, seekFails: bool, readFails: bool) returns (ds: seq<Dirent>, errno: Errno)
      requires Valid()
      modifies this, f
      ensures Valid()
      ensures errno == Success || errno == Enoent || errno == Eio
      ensures errno == Eio <==>
                && !(pos > old(countRead) || (n > 0 && 0 < pos < old(CacheStart())))
                && ((pos == 0 && old(dirents).Some? && seekFails) || (readFails && old(ReadsOn(pos, n))))
      ensures errno == Eio ==> ds == [] && (pos == 0 || CacheStart() == pos <= countRead)
      ensures errno == Eio && pos == 0 && old(dirents).Some? && seekFails ==>
                dirents == old(dirents) && countRead == old(countRead)
      ensures errno == Eio && pos == 0 && !(old(dirents).Some? && seekFails) ==> CacheStart() == 0 && countRead == 2
      ensures errno == Eio && pos > 0 ==> countRead == old(countRead)
      ensures errno == Enoent <==> pos > old(countRead) || (n > 0 && 0 < pos < old(CacheStart()))
      ensures errno == Enoent ==> ds == [] && dirents == old(dirents) && countRead == old(countRead)
      ensures errno == Success ==> pos <= |All()|
      ensures errno == Success ==>
                ds == if n == 0 || (n == 2 && pos == 0) then [] else All()[pos..Min(pos + n, |All()|)]
      ensures errno == Success && n > 0 ==>
                dirents.Some? && CacheStart() == pos && pos + |ds| <= countRead == old(WindowEnd(pos, n))
      ensures errno == Success && n == 0 ==>
                if pos == 0 then dirents == None else dirents == old(dirents) && countRead == old(countRead)
    {
      errno := Success;
      ds := [];
      if pos > countRead {
        errno := Enoent;
        return;
      } else if pos == 0 && dirents.Some? {
        errno := f.Rewind(seekFails);
        if errno != Success { return; }
        dirents := None;
        countRead := 0;
      }
      if n == 0 {
        return;
      }
      ds, errno := ReadFrom(pos, n, readFails);
    }
  }
}
