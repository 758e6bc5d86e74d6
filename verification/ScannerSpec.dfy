/** Splitting a growing JSON array into its elements (internal/boundarylog/stream.go:140-278).

    `ScannerSpec` describes the scanner one byte at a time; `Scanner` is the buffered object,
    whose `Next` is proved to do what the byte automaton does. */
module ScannerSpec {
  import opened Wrappers

  const SPACE: byte := 0x20
  const TAB: byte := 0x09
  const NEWLINE: byte := 0x0a
  const RETURN: byte := 0x0d
  const COMMA: byte := 0x2c
  const OPEN_ARRAY: byte := 0x5b
  const CLOSE_ARRAY: byte := 0x5d
  const OPEN_OBJECT: byte := 0x7b
  const CLOSE_OBJECT: byte := 0x7d
  const QUOTE: byte := 0x22
  const BACKSLASH: byte := 0x5c

  predicate IsSpace(c: byte) { c == SPACE || c == TAB || c == NEWLINE || c == RETURN }

  predicate IsSeparator(c: byte) { IsSpace(c) || c == COMMA }

  datatype Phase =
    | Before                      // the opening bracket has not been seen
    | Between                     // between elements
    | Inside(partial: seq<byte>, depth: nat, inString: bool, escaped: bool)
    | Closed                      // the closing bracket has been seen
    | Bad

  /** Byte `c` completes the element being scanned. */
  predicate Completes(p: Phase, c: byte) { p.Inside? && !p.inString && c == CLOSE_OBJECT && p.depth == 1 }

  function Step(p: Phase, c: byte): Phase {
    match p
    case Bad => Bad
    case Before => if IsSpace(c) then Before else if c == OPEN_ARRAY then Between else Bad
    case Closed => if IsSeparator(c) then Closed else Bad
    case Between =>
      if IsSeparator(c) then Between
      else if c == CLOSE_ARRAY then Closed
      else if c == OPEN_OBJECT then Inside([c], 1, false, false)
      else Bad
    case Inside(partial, depth, inString, escaped) =>
      if inString then
        Inside(partial + [c], depth, escaped || c != QUOTE, !escaped && c == BACKSLASH)
      else if c == QUOTE then Inside(partial + [c], depth, true, escaped)
      else if c == OPEN_OBJECT then Inside(partial + [c], depth + 1, inString, escaped)
      else if c == CLOSE_OBJECT then
        if depth <= 1 then Between else Inside(partial + [c], depth - 1, inString, escaped)
      else Inside(partial + [c], depth, inString, escaped)
  }

  /** What one call of `next` finds in the unread bytes. */
  datatype Next =
    | Element(elem: seq<byte>, phase: Phase, unread: seq<byte>)
    | Starved(phase: Phase, unread: seq<byte>)
    | Failed

  function NextElement(p: Phase, unread: seq<byte>): Next
    decreases |unread|
  {
    if unread == [] then Starved(p, [])
    else
      var c, rest := unread[0], unread[1..];
      var q := Step(p, c);
      if q.Bad? then Failed
      else if Completes(p, c) then Element(p.partial + [c], q, rest)
      else if q.Closed? && !p.Closed? then Starved(q, rest)
      else NextElement(q, rest)
  }

  lemma {:induction false} NothingLeft(p: Phase)
    ensures NextElement(p, []) == Starved(p, [])
  {}

  /** One byte of an element in progress. */
  lemma {:induction false} InsideNext(p: Phase, unread: seq<byte>)
    requires p.Inside? && unread != []
    ensures NextElement(p, unread) ==
            if Completes(p, unread[0]) then Element(p.partial + [unread[0]], Between, unread[1..])
            else NextElement(Step(p, unread[0]), unread[1..])
  {}

  lemma {:induction false} NextConsumes(p: Phase, unread: seq<byte>)
    ensures NextElement(p, unread).Element? ==> |NextElement(p, unread).unread| < |unread|
    decreases |unread|
  {
    if unread != [] { NextConsumes(Step(p, unread[0]), unread[1..]); }
  }
}
