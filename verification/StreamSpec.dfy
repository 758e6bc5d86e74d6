/** Reading a boundary recording while it is produced (internal/boundarylog/stream.go:284-432).

    The producer is the sequence of results its `Read` calls will return; decoding one JSON
    record is a parameter. `StreamSpec.Outcome` says which call groups a reader will hand out
    and how the stream ends; `StreamReader.NextGroup` is proved to hand out exactly those. */
module StreamSpec {
  import opened Wrappers
  import opened Crossings
  import opened AssemblerSpec
  import opened ScannerSpec
  import opened AssemblerInvariant

  datatype ReadEnd = More | Eof | Broken

  /** One result of reading from the producer: bytes, possibly with end of file or an error. */
  datatype Read = Read(bytes: seq<byte>, end: ReadEnd)

  datatype TruncationKind = MidRecord | MidCrossing | Unterminated

  datatype Failure =
    | Truncated(kind: TruncationKind, groups: nat, openCrossings: nat, pendingBytes: nat)
    | Malformed

  datatype End = Clean | Stopped(failure: Failure)

  /** The call groups a stream yields, and how it ends. */
  datatype Feed = Feed(groups: seq<seq<Crossing>>, end: End)

  /** The scanner and the assembler of a reader. */
  datatype Reader = Reader(phase: Phase, unread: seq<byte>, asm: Asm)

  type Decoder = seq<byte> -> Option<Record>

  /** Decodes and assembles every record the scanner can produce. */
  function DrainInto(decode: Decoder, r: Reader): (out: Result<Reader>)
    requires Shape(r.asm)
    ensures out.Ok? ==> Shape(out.value.asm)
    decreases |r.unread|
  {
    match NextElement(r.phase, r.unread)
    case Failed => Err
    case Starved(p, u) => Ok(r.(phase := p, unread := u))
    case Element(e, p, u) =>
      NextConsumes(r.phase, r.unread);
      match decode(e)
      case None => Err
      case Some(ev) =>
        match Push(r.asm, ev)
        case Err => Err
        case Ok(t) => DrainInto(decode, r.(phase := p, unread := u, asm := t))
  }

  /** One read: its bytes are fed and drained, then its end is looked at. */
  function Pump(decode: Decoder, r: Reader, read: Read): (out: Result<Reader>)
    requires Shape(r.asm)
    ensures out.Ok? ==> Shape(out.value.asm)
  {
    var drained := if read.bytes == [] then Ok(r) else DrainInto(decode, r.(unread := r.unread + read.bytes));
    if drained.Ok? && read.end.Broken? then Err else drained
  }

  /** What is left to read after `src[0]`: nothing once the producer has finished. */
  function Later(src: seq<Read>): seq<Read>
    requires src != []
  {
    if src[0].end.Eof? then [] else src[1..]
  }

  /** The i-th completed call group. */
  function Group(s: Asm, i: nat): seq<Crossing>
    requires i < |s.groupEnds|
  {
    var a, b := GroupBase(s.groupEnds, i), s.groupEnds[i];
    if a <= b <= |s.crossings| then s.crossings[a..b] else []
  }

  function PendingBytes(r: Reader): nat {
    if r.phase.Inside? then |r.phase.partial| + |r.unread| else 0
  }

  /** Closes the assembler at end of stream, `next` groups having been handed out, and
      classifies an unclean end. */
  function FinishStream(r: Reader, next: nat): (out: (Asm, Option<Failure>))
    requires Shape(r.asm)
    ensures out.1.None? ==> Shape(out.0)
  {
    var open := |r.asm.stack|;
    if PendingBytes(r) > 0 then (r.asm, Some(Truncated(MidRecord, next, open, PendingBytes(r))))
    else
      match Finish(r.asm)
      case Err => (r.asm, Some(if open > 0 then Truncated(MidCrossing, next, open, 0) else Malformed))
      case Ok(t) => (t, if r.phase.Closed? then None else Some(Truncated(Unterminated, next, 0, 0)))
  }

  /** Everything `NextGroup` will return, in order. */
  function Outcome(decode: Decoder, r: Reader, next: nat, src: seq<Read>, closed: bool): Feed
    requires Shape(r.asm) && (closed ==> src == [])
    decreases |src|, !closed, |r.asm.groupEnds| - next
  {
    if next < |r.asm.groupEnds| then
      var f := Outcome(decode, r, next + 1, src, closed);
      f.(groups := [Group(r.asm, next)] + f.groups)
    else if closed then Feed([], Clean)
    else if src == [] then
      var (t, failure) := FinishStream(r, next);
      if failure.Some? then Feed([], Stopped(failure.value)) else Outcome(decode, r.(asm := t), next, [], true)
    else
      match Pump(decode, r, src[0])
      case Err => Feed([], Stopped(Malformed))
      case Ok(t) => Outcome(decode, t, next, Later(src), false)
  }

  const START := Reader(Before, [], EMPTY)

  /** What a fresh reader of `src` yields. */
  function Stream(decode: Decoder, src: seq<Read>): Feed { Outcome(decode, START, 0, src, false) }
}
