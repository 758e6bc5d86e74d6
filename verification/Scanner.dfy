/** The scanner as an object whose fields change byte by byte (internal/boundarylog/stream.go:144-278). */
module Scanner {
  import opened Wrappers
  import opened ScannerSpec

  class Scanner {
    var buf: seq<byte>
    var i: nat
    var started: bool
    var done: bool
    var elemStart: int
    var depth: nat
    var inString: bool
    var escaped: bool

    /** An element in progress starts the buffer: `compact` runs before every element. */
    ghost predicate Valid()
      reads this
    {
      && i <= |buf|
      && (elemStart == -1 || (elemStart == 0 && started && !done && 0 < i && 0 < depth))
      && (done ==> started)
    }

    ghost function Phase(): Phase
      reads this
      requires Valid()
    {
      if !started then Before
      else if elemStart >= 0 then Inside(buf[..i], depth, inString, escaped)
      else if done then Closed else Between
    }

    ghost function Unread(): seq<byte>
      reads this
      requires Valid()
    {
      buf[i..]
    }

    constructor ()
      ensures Valid() && Phase() == Before && Unread() == []
    {
      buf, i, started, done, elemStart := [], 0, false, false, -1;
      depth, inString, escaped := 0, false, false;
    }

    method Feed(b: seq<byte>)
      requires Valid()
      modifies this`buf
      ensures Valid() && Phase() == old(Phase()) && Unread() == old(Unread()) + b
    {
      buf := buf + b;
    }

    /** The size of the unfinished element: what was scanned of it and what is still unread. */
    method Pending() returns (n: nat)
      requires Valid()
      ensures n > 0 <==> Phase().Inside?
      ensures Phase().Inside? ==> n == |Phase().partial| + |Unread()|
    {
      if elemStart < 0 { return 0; }
      return |buf| - elemStart;
    }

    /** Drops the bytes already consumed; only between elements. */
    method Compact()
      requires Valid()
      modifies this`buf, this`i
      ensures Valid() && Phase() == old(Phase()) && Unread() == old(Unread())
      ensures elemStart < 0 ==> i == 0
    {
      if elemStart >= 0 || i == 0 { return; }
      buf := buf[i..];
      i := 0;
    }

    /** What is left to find is what was to be found before. */
    twostate predicate Progressed()
      reads this
      requires old(Valid()) && Valid()
    {
      NextElement(Phase(), Unread()) == NextElement(old(Phase()), old(Unread()))
    }

    /** Skips to the opening bracket; `more` unless the bytes ran out or are not an array. */
    method Start() returns (more: bool, err: bool)
      requires Valid() && !started
      modifies this`i, this`started
      ensures Valid()
      ensures more ==> !err && started && elemStart < 0 && Progressed()
      ensures !more ==> var n := NextElement(old(Phase()), old(Unread()));
                        if err then n.Failed? else n == Starved(Phase(), Unread()) && Phase().Before?
    {
      more, err := false, false;
      while i < |buf| && IsSpace(buf[i])
        invariant Valid() && !started && Progressed()
      {
        assert Unread()[1..] == buf[i + 1..];
        i := i + 1;
      }
      if i >= |buf| { return; }
      if buf[i] != OPEN_ARRAY { err := true; return; }
      assert Unread()[1..] == buf[i + 1..];
      started := true;
      i := i + 1;
      more := true;
    }

    /** Skips separators and starts an element; `more` unless there is none to start. */
    method BeginElement() returns (more: bool, err: bool)
      requires Valid() && started && elemStart < 0
      modifies this
      ensures Valid()
      ensures more ==> !err && elemStart == 0 && Progressed()
      ensures !more ==> var n := NextElement(old(Phase()), old(Unread()));
                        if err then n.Failed? else n == Starved(Phase(), Unread()) && (Phase().Between? ==> buf == []) && !Phase().Inside?
    {
      more, err := false, false;
      while i < |buf| && IsSeparator(buf[i])
        invariant Valid() && started && elemStart < 0 && Progressed()
      {
        assert Unread()[1..] == buf[i + 1..];
        i := i + 1;
      }
      Compact();
      if i >= |buf| { return; }
      if done { err := true; return; }
      assert Unread()[1..] == buf[i + 1..];
      if buf[i] == CLOSE_ARRAY {
        done := true;
        i := i + 1;
        return;
      }
      if buf[i] != OPEN_OBJECT { err := true; return; }
      elemStart := i;
      // The opening brace is the element's first byte.
      depth, inString, escaped := 1, false, false;
      i := i + 1;
      assert buf[..1] == [OPEN_OBJECT];
      more := true;
    }

    /** Scans the element in progress to its closing brace or to the end of the buffer. */
    method ScanElement() returns (elem: seq<byte>, ok: bool)
      requires Valid() && elemStart == 0
      modifies this
      ensures Valid()
      ensures var n := NextElement(old(Phase()), old(Unread()));
              if ok then n == Element(elem, Phase(), Unread())
              else n == Starved(Phase(), Unread()) && Phase() == Inside(buf, depth, inString, escaped)
    {
      hide NextElement;
      elem, ok := [], false;
      while i < |buf|
        invariant Valid() && elemStart == 0 && Progressed()
        decreases |buf| - i
      {
        var c := buf[i];
        assert buf[..i + 1] == buf[..i] + [c] && Unread()[1..] == buf[i + 1..];
        InsideNext(Phase(), Unread());
        i := i + 1;
        if inString {
          if escaped {
            escaped := false;
          } else if c == BACKSLASH {
            escaped := true;
          } else if c == QUOTE {
            inString := false;
          }
        } else if c == QUOTE {
          inString := true;
        } else if c == OPEN_OBJECT {
          depth := depth + 1;
        } else if c == CLOSE_OBJECT {
          depth := depth - 1;
          if depth == 0 {
            elem, ok := buf[..i], true;
            elemStart := -1;
            return;
          }
        }
      }
      assert buf[..i] == buf;
      NothingLeft(Phase());
    }

    /** The next complete element, or `ok == false` when more bytes are needed, when the array
        has closed, or (with `err`) when the bytes are not an array of objects. While the array
        is open, a call that finds no element leaves only the unfinished one in the buffer. */
    method Next() returns (elem: seq<byte>, ok: bool, err: bool)
      requires Valid()
      modifies this
      ensures Valid()
      ensures var n := NextElement(old(Phase()), old(Unread()));
              if ok then !err && n == Element(elem, Phase(), Unread())
              else if err then n.Failed?
              else n == Starved(Phase(), Unread())
      ensures !ok && !err && Phase().Between? ==> buf == []
      ensures !ok && !err && Phase().Inside? ==> buf == Phase().partial
    {
      elem, ok, err := [], false, false;
      var more := true;
      if !started {
        more, err := Start();
        if !more { return; }
      }
      if elemStart < 0 {
        more, err := BeginElement();
        if !more { return; }
      }
      elem, ok := ScanElement();
    }
  }
}
