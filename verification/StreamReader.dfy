/** The stream reader as an object (internal/boundarylog/stream.go:284-432). */
module StreamReader {
  import opened Wrappers
  import opened Crossings
  import opened AssemblerSpec
  import opened ScannerSpec
  import opened StreamSpec
  import opened AssemblerInvariant
  import Assembler
  import Scanner

  datatype Answer = Yielded(group: seq<Crossing>) | EndOfStream | Failing(failure: Failure)

  class StreamReader {
    const decode: Decoder
    const sc: Scanner.Scanner
    const asm: Assembler.Assembler
    var src: seq<Read>      // what the producer has not delivered yet
    var next: nat
    var eof: bool
    var closed: bool
    var failed: Option<Failure>

    ghost predicate Valid()
      reads this, sc, asm
    {
      sc.Valid() && asm.Valid() && (closed ==> eof)
    }

    ghost function View(): (r: Reader)
      reads this, sc, asm
      requires Valid()
      ensures Shape(r.asm)
    {
      Reader(sc.Phase(), sc.Unread(), asm.View())
    }

    ghost function Future(): Feed
      reads this, sc, asm
      requires Valid()
    {
      if failed.Some? then Feed([], Stopped(failed.value))
      else Outcome(decode, View(), next, if eof then [] else src, closed)
    }

    constructor (decode: Decoder, src: seq<Read>)
      ensures Valid() && fresh(sc) && fresh(asm)
      ensures Future() == Stream(decode, src)
    {
      this.decode := decode;
      sc := new Scanner.Scanner();
      asm := new Assembler.Assembler();
      this.src := src;
      next, eof, closed, failed := 0, false, false, None;
    }

    /** Feeds the assembler each element that is complete, in order. */
    method Drain() returns (ok: bool)
      requires Valid()
      modifies sc, asm
      ensures Valid()
      ensures ok == DrainInto(decode, old(View())).Ok?
      ensures ok ==> View() == DrainInto(decode, old(View())).value
    {
      while true
        invariant Valid()
        invariant DrainInto(decode, View()) == DrainInto(decode, old(View()))
        decreases |sc.Unread()|
      {
        NextConsumes(sc.Phase(), sc.Unread());
        var raw, more, err := sc.Next();
        if err { return false; }
        if !more { return true; }
        var ev := decode(raw);
        if ev.None? { return false; }
        var pushed := asm.Push(ev.value);
        if !pushed { return false; }
      }
    }

    /** Reads once from the producer and assembles what that completes. */
    method Pump() returns (ok: bool)
      requires Valid() && !eof && !closed
      modifies this`src, this`eof, sc, asm
      ensures Valid() && !closed
      ensures old(src) == [] ==> ok && eof && src == [] && View() == old(View())
      ensures old(src) != [] ==>
                && ok == StreamSpec.Pump(decode, old(View()), old(src)[0]).Ok?
                && (ok ==> View() == StreamSpec.Pump(decode, old(View()), old(src)[0]).value)
                && (ok ==> (if eof then [] else src) == Later(old(src)) && |src| < |old(src)|)
    {
      if src == [] {
        eof := true;
        return true;
      }
      var read := src[0];
      src := src[1..];
      if read.bytes != [] {
        sc.Feed(read.bytes);
        ok := Drain();
        if !ok { return; }
      }
      match read.end {
        case More => return true;
        case Eof =>
          eof := true;
          return true;
        case Broken => return false;
      }
    }

    method FinishStream() returns (failure: Option<Failure>)
      requires Valid()
      modifies asm
      ensures Valid()
      ensures failure == StreamSpec.FinishStream(old(View()), next).1
      ensures failure.None? ==> asm.View() == StreamSpec.FinishStream(old(View()), next).0
    {
      var pending := sc.Pending();
      var open := |asm.stack|;
      if pending > 0 { return Some(Truncated(MidRecord, next, open, pending)); }
      var finished := asm.Finish();
      if !finished {
        if open > 0 { return Some(Truncated(MidCrossing, next, open, 0)); }
        return Some(Malformed);
      }
      if !sc.done { return Some(Truncated(Unterminated, next, 0, 0)); }
      return None;
    }

    /** The crossings of the i-th completed call group. */
    method GroupAt(i: nat) returns (g: seq<Crossing>)
      requires Valid() && i < |asm.groupEnds|
      ensures g == Group(asm.View(), i)
    {
      var start := if i > 0 then asm.groupEnds[i - 1] else 0;
      var end := asm.groupEnds[i];
      g := if start <= end <= |asm.crossings| then asm.crossings[start..end] else [];
    }

    /** The next complete call group. */
    method NextGroup() returns (answer: Answer)
      requires Valid()
      modifies this, sc, asm
      ensures Valid()
      ensures match answer
              case Yielded(group) =>
                && old(Future()).groups != [] && group == old(Future()).groups[0]
                && Future() == old(Future()).(groups := old(Future()).groups[1..])
              case EndOfStream => old(Future()) == Feed([], Clean) == Future()
              case Failing(f) => old(Future()) == Feed([], Stopped(f)) == Future()
    {
      hide StreamSpec.Pump;
      hide StreamSpec.FinishStream;
      if failed.Some? { return Failing(failed.value); }
      while true
        invariant Valid() && failed.None? && Future() == old(Future())
        decreases !closed, !eof, |src|
      {
        if next < |asm.groupEnds| {
          var g := GroupAt(next);
          next := next + 1;
          return Yielded(g);
        }
        if eof {
          if closed { return EndOfStream; }
          var failure := FinishStream();
          if failure.Some? {
            failed := failure;
            return Failing(failure.value);
          }
          closed := true;
        } else {
          var ok := Pump();
          if !ok {
            failed := Some(Malformed);
            return Failing(Malformed);
          }
        }
      }
    }
  }
}
