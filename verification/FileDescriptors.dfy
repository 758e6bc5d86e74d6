/** Opening, renumbering and closing descriptors (internal/sys/fs.go:271-315, 348-359). */
module FileDescriptors {
  import opened TableSpec
  import opened DescriptorTable

  datatype Errno = Success | Ebadf | Enotsup | OpenFailed | CloseFailed

  /** An open file: which one it is, and whether it was opened before the guest started. */
  datatype FileEntry = FileEntry(id: nat, isPreopen: bool)

  class FSContext {
    const openedFiles: Table<FileEntry>
    /** The files closed so far, in order. */
    var closed: seq<FileEntry>
    /** How many files have been opened; each gets its own id. */
    var total: nat

    ghost predicate Valid()
      reads this, openedFiles
    {
      openedFiles.Valid()
    }

    ghost function Open(): map<nat, FileEntry>
      reads this, openedFiles
      requires Valid()
    {
      openedFiles.View()
    }

    constructor (openedFiles: Table<FileEntry>, total: nat)
      requires openedFiles.Valid()
      ensures Valid() && Open() == openedFiles.View() && closed == [] && this.total == total
    {
      this.openedFiles := openedFiles;
      closed := [];
      this.total := total;
    }

    /** `opens` says whether the file system opens the file; a failure changes nothing. The new file
        gets the least descriptor that is not in use. */
    method OpenFile(opens: bool) returns (fd: nat, errno: Errno)
      requires Valid() && |Open()| < KEY_LIMIT
      modifies this, openedFiles
      ensures Valid() && closed == old(closed)
      ensures errno == if opens then Success else OpenFailed
      ensures errno != Success ==> fd == 0 && Open() == old(Open()) && total == old(total)
      ensures errno == Success ==> fd !in old(Open()) && forall k: nat :: k < fd ==> k in old(Open())
      ensures errno == Success ==> Open() == old(Open())[fd := FileEntry(old(total), false)] && total == old(total) + 1
    {
      if !opens {
        return 0, OpenFailed;
      }
      FreeKey(Open(), KEY_LIMIT);
      fd := openedFiles.Insert(FileEntry(total, false));
      total := total + 1;
      errno := Success;
    }

    /** Moves one entry. It fails, and changes nothing, exactly on a source that is not open, a
        negative target, or a pre-open at either end. A file at the target is closed. */
    method Renumber(from: int, target: int) returns (errno: Errno)
      requires Valid() && target < KEY_LIMIT
      modifies this, openedFiles
      ensures Valid() && total == old(total)
      ensures errno == RenumberErrno(old(Open()), from, target)
      ensures errno == Ebadf <==> !(0 <= from && from in old(Open())) || target < 0
      ensures errno == Enotsup <==>
                && errno != Ebadf
                && (old(Open())[from].isPreopen || (target in old(Open()) && old(Open())[target].isPreopen))
      ensures errno != Success ==> Open() == old(Open()) && closed == old(closed)
      ensures errno == Success ==> Open() == Renumbered(old(Open()), from, target)
      ensures errno == Success ==> Open() == (old(Open()) - {from})[target := old(Open())[from]]
      ensures errno == Success ==>
                closed == old(closed) + if target in old(Open()) then [old(Open())[target]] else []
      ensures forall fd :: fd in old(Open()) && old(Open())[fd].isPreopen ==> fd in Open() && Open()[fd] == old(Open())[fd]
    {
      var fromFile := openedFiles.Lookup(from);
      if fromFile.None? || target < 0 {
        return Ebadf;
      } else if fromFile.value.isPreopen {
        return Enotsup;
      }
      var targetFile := openedFiles.Lookup(target);
      if targetFile.Some? {
        if targetFile.value.isPreopen {
          return Enotsup;
        }
        closed := closed + [targetFile.value];
      }
      openedFiles.Delete(from);
      var ok := openedFiles.InsertAt(fromFile.value, target);
      if !ok {
        return Ebadf;
      }
      errno := Success;
    }

    /** `closes` says whether closing the underlying file works; a failure leaves it open. */
    method CloseFile(fd: int, closes: bool) returns (errno: Errno)
      requires Valid()
      modifies this, openedFiles
      ensures Valid() && total == old(total)
      ensures errno == if !(0 <= fd && fd in old(Open())) then Ebadf else if closes then Success else CloseFailed
      ensures Open() == if errno == Success then old(Open()) - {fd} else old(Open())
      ensures closed == old(closed) + if errno == Success then [old(Open())[fd]] else []
    {
      var f := openedFiles.Lookup(fd);
      if f.None? {
        return Ebadf;
      }
      if !closes {
        return CloseFailed;
      }
      closed := closed + [f.value];
      openedFiles.Delete(fd);
      errno := Success;
    }
  }

  /** The descriptors below `n`. */
  ghost function Below(n: nat): (r: set<nat>)
    ensures |r| == n && forall k: nat :: k in r <==> k < n
  {
    if n == 0 then {} else Below(n - 1) + {n - 1}
  }

  lemma {:induction false} SubsetSize<T>(a: set<T>, b: set<T>)
    requires a <= b
    ensures |a| <= |b|
  {
    assert b == a + (b - a);
  }

  /** Fewer than `n` descriptors in use leave one below `n` unused. */
  lemma {:induction false} FreeKey<T>(open: map<nat, T>, n: nat)
    requires |open| < n
    ensures exists k: nat :: k < n && k !in open
  {
    var all := Below(n);
    if all <= open.Keys {
      SubsetSize(all, open.Keys);
    } else {
      var k :| k in all && k !in open.Keys;
    }
  }

  function RenumberErrno(open: map<nat, FileEntry>, from: int, target: int): Errno {
    if !(0 <= from && from in open) || target < 0 then Ebadf
    else if open[from].isPreopen || (target in open && open[target].isPreopen) then Enotsup
    else Success
  }

  /** The entry at `from`, and nothing else, moves to `target`. */
  function Renumbered(open: map<nat, FileEntry>, from: nat, target: nat): map<nat, FileEntry>
    requires from in open
  {
    (open - {from})[target := open[from]]
  }
}
