/** Directory entries as WASI `fd_readdir` lays them out (imports/wasi_snapshot_preview1/fs.go:941-1031):
    a 24-byte little-endian header (d_next, d_ino, d_namlen, d_type) and the name. */
module Dirents {
  import opened Wrappers
  import opened Bytes

  const DIRENT_SIZE: nat := 24
  /** The largest entry that can be encoded; anything longer panics. */
  const LARGEST_DIRENT: nat := MAX_UINT32 - DIRENT_SIZE

  datatype Dirent = Dirent(name: seq<byte>, ino: uint64, filetype: uint32)

  /** Names of directory entries are never empty, and the entry can be encoded. */
  predicate Encodable(d: Dirent) { d.name != [] && DIRENT_SIZE + |d.name| <= LARGEST_DIRENT }

  predicate AllEncodable(ds: seq<Dirent>) { forall k :: 0 <= k < |ds| ==> Encodable(ds[k]) }

  function EntryLen(d: Dirent): nat { DIRENT_SIZE + |d.name| }

  function Size(ds: seq<Dirent>): nat {
    if ds == [] then 0 else EntryLen(ds[0]) + Size(ds[1..])
  }

  // ---- printing and parsing entries -------------------------------------------

  function Header(d: Dirent, next: nat): (s: seq<byte>)
    ensures |s| == DIRENT_SIZE
  {
    LittleEndian(next, 8) + LittleEndian(d.ino, 8) + LittleEndian(|d.name|, 4) + LittleEndian(d.filetype, 4)
  }

  function Entry(d: Dirent, next: nat): (s: seq<byte>)
    ensures |s| == EntryLen(d)
  {
    Header(d, next) + d.name
  }

  /** Entries numbered from `next`. */
  function Entries(ds: seq<Dirent>, next: nat): (s: seq<byte>)
    ensures |s| == Size(ds)
  {
    if ds == [] then [] else Entry(ds[0], next) + Entries(ds[1..], next + 1)
  }

  datatype Listed = Listed(next: nat, entry: Dirent)

  /** What a guest reads: the complete entries at the front of the buffer. */
  function Parse(bytes: seq<byte>): seq<Listed>
    decreases |bytes|
  {
    if |bytes| < DIRENT_SIZE then []
    else
      var namlen := FromLittleEndian(bytes[16..20]);
      if DIRENT_SIZE + namlen > |bytes| then []
      else
        var ino, filetype := FromLittleEndian(bytes[8..16]), FromLittleEndian(bytes[20..24]);
        var d := Dirent(bytes[DIRENT_SIZE..DIRENT_SIZE + namlen],
                        if ino <= MAX_UINT64 then ino else 0, if filetype <= MAX_UINT32 then filetype else 0);
        [Listed(FromLittleEndian(bytes[0..8]), d)] + Parse(bytes[DIRENT_SIZE + namlen..])
  }

  function Numbered(ds: seq<Dirent>, next: nat): (r: seq<Listed>)
    ensures |r| == |ds| && forall k :: 0 <= k < |ds| ==> r[k] == Listed(next + k, ds[k])
  {
    seq(|ds|, k requires 0 <= k < |ds| => Listed(next + k, ds[k]))
  }

  lemma {:induction false} HeaderFields(d: Dirent, next: nat, rest: seq<byte>)
    requires Encodable(d) && next <= MAX_UINT64
    ensures var s := Header(d, next) + rest;
            && FromLittleEndian(s[0..8]) == next && FromLittleEndian(s[8..16]) == d.ino
            && FromLittleEndian(s[16..20]) == |d.name| && FromLittleEndian(s[20..24]) == d.filetype
            && s[DIRENT_SIZE..] == rest
  {
    var s := Header(d, next) + rest;
    Widths();
    assert s[0..8] == LittleEndian(next, 8) && s[8..16] == LittleEndian(d.ino, 8);
    assert s[16..20] == LittleEndian(|d.name|, 4) && s[20..24] == LittleEndian(d.filetype, 4);
    LittleEndianRoundTrip(next, 8);
    LittleEndianRoundTrip(d.ino, 8);
    LittleEndianRoundTrip(|d.name|, 4);
    LittleEndianRoundTrip(d.filetype, 4);
  }

  lemma {:induction false} ParseEntry(d: Dirent, next: nat, rest: seq<byte>)
    requires Encodable(d) && next <= MAX_UINT64
    ensures Parse(Entry(d, next) + rest) == [Listed(next, d)] + Parse(rest)
  {
    hide LittleEndian;
    hide FromLittleEndian;
    var s := Entry(d, next) + rest;
    assert s == Header(d, next) + (d.name + rest);
    HeaderFields(d, next, d.name + rest);
    assert s[DIRENT_SIZE..DIRENT_SIZE + |d.name|] == d.name && s[DIRENT_SIZE + |d.name|..] == rest;
  }

  /** The guest reads back the complete entries and stops at an incomplete one. */
  lemma {:induction false} ParseEntries(ds: seq<Dirent>, next: nat, rest: seq<byte>)
    requires AllEncodable(ds) && next + |ds| <= MAX_UINT64 + 1
    ensures Parse(Entries(ds, next) + rest) == Numbered(ds, next) + Parse(rest)
    decreases |ds|
  {
    hide Parse;
    hide Entry;
    if ds == [] {
      assert Entries(ds, next) + rest == rest && Numbered(ds, next) + Parse(rest) == Parse(rest);
    } else {
      var tail := Entries(ds[1..], next + 1) + rest;
      assert Entries(ds, next) + rest == Entry(ds[0], next) + tail;
      ParseEntry(ds[0], next, tail);
      ParseEntries(ds[1..], next + 1, rest);
      assert Numbered(ds, next) == [Listed(next, ds[0])] + Numbered(ds[1..], next + 1);
      assert [Listed(next, ds[0])] + (Numbered(ds[1..], next + 1) + Parse(rest)) == Numbered(ds, next) + Parse(rest);
    }
  }

  /** A header whose name does not fit, or less than a header, is not an entry. */
  lemma {:induction false} ParseIncomplete(d: Dirent, next: nat, rest: seq<byte>)
    requires Encodable(d) && next <= MAX_UINT64 && DIRENT_SIZE + |rest| < EntryLen(d)
    ensures Parse(Header(d, next) + rest) == []
  {
    hide LittleEndian;
    hide FromLittleEndian;
    HeaderFields(d, next, rest);
  }

  // ---- sizes ---------------------------------------------------------------------

  lemma {:induction false} SizeAppend(a: seq<Dirent>, b: seq<Dirent>)
    ensures Size(a + b) == Size(a) + Size(b)
    decreases |a|
  {
    if a == [] {
      assert a + b == b;
    } else {
      assert (a + b)[1..] == a[1..] + b;
      SizeAppend(a[1..], b);
    }
  }

  lemma {:induction false} SizeNext(ds: seq<Dirent>, k: nat)
    requires k < |ds|
    ensures Size(ds[..k + 1]) == Size(ds[..k]) + EntryLen(ds[k])
  {
    assert ds[..k + 1] == ds[..k] + [ds[k]];
    SizeAppend(ds[..k], [ds[k]]);
    assert [ds[k]][1..] == [];
  }

  lemma {:induction false} SizePrefix(ds: seq<Dirent>, k: nat)
    requires k <= |ds|
    ensures Size(ds[..k]) <= Size(ds)
  {
    assert ds == ds[..k] + ds[k..];
    SizeAppend(ds[..k], ds[k..]);
  }

  lemma {:induction false} SizeAtLeast(ds: seq<Dirent>)
    requires AllEncodable(ds)
    ensures Size(ds) >= (DIRENT_SIZE + 1) * |ds|
    decreases |ds|
  {
    if ds != [] { SizeAtLeast(ds[1..]); }
  }

  lemma {:induction false} EntriesAppend(a: seq<Dirent>, b: seq<Dirent>, next: nat)
    ensures Entries(a + b, next) == Entries(a, next) + Entries(b, next + |a|)
    decreases |a|
  {
    hide Entry;
    if a == [] {
      assert a + b == b;
    } else {
      assert (a + b)[1..] == a[1..] + b;
      EntriesAppend(a[1..], b, next + 1);
      assert Entry(a[0], next) + (Entries(a[1..], next + 1) + Entries(b, next + |a|)) ==
             Entries(a, next) + Entries(b, next + |a|);
    }
  }

  lemma {:induction false} EntriesNext(ds: seq<Dirent>, k: nat, next: nat)
    requires k < |ds|
    ensures Entries(ds[..k + 1], next) == Entries(ds[..k], next) + Entry(ds[k], next + k)
  {
    assert ds[..k + 1] == ds[..k] + [ds[k]];
    EntriesAppend(ds[..k], [ds[k]], next);
    assert [ds[k]][1..] == [] && Entry(ds[k], next + k) + [] == Entry(ds[k], next + k);
  }
}
