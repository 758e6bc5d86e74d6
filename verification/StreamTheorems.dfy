/** A stream is read the same however its bytes arrive, and truncation is safe: a cleanly closed stream
    yields exactly what one pass over all its bytes and `reconstructCrossings` recover, and a stream cut
    short yields a prefix of it and says so. */
module StreamTheorems {
  import opened Wrappers
  import opened Labels
  import opened Crossings
  import opened AssemblerSpec
  import opened AssemblerInvariant
  import opened ScannerSpec
  import opened ScannerProofs
  import opened StreamSpec

  /** The bytes delivered before the producer finishes. */
  function Chunks(src: seq<Read>): seq<seq<byte>>
    decreases |src|
  {
    if src == [] then [] else [src[0].bytes] + Chunks(Later(src))
  }

  function BytesOf(src: seq<Read>): seq<byte> { Flatten(Chunks(src)) }

  /** No read fails. */
  predicate Intact(src: seq<Read>)
    decreases |src|
  {
    src == [] || (!src[0].end.Broken? && Intact(Later(src)))
  }

  /** All reads, in order. */
  function Process(decode: Decoder, r: Reader, src: seq<Read>): (out: Result<Reader>)
    requires Shape(r.asm)
    ensures out.Ok? ==> Shape(out.value.asm)
    decreases |src|
  {
    if src == [] then Ok(r)
    else
      match Pump(decode, r, src[0])
      case Err => Err
      case Ok(t) => Process(decode, t, Later(src))
  }

  function DecodeAll(decode: Decoder, elems: seq<seq<byte>>): (out: Option<seq<Record>>)
    ensures out.Some? ==> |out.value| == |elems|
  {
    if elems == [] then Some([])
    else
      match (decode(elems[0]), DecodeAll(decode, elems[1..]))
      case (Some(ev), Some(evs)) => Some([ev] + evs)
      case _ => None
  }

  lemma {:induction false} DecodeAppend(decode: Decoder, a: seq<seq<byte>>, b: seq<seq<byte>>)
    ensures DecodeAll(decode, a + b) ==
            match (DecodeAll(decode, a), DecodeAll(decode, b))
            case (Some(x), Some(y)) => Some(x + y)
            case _ => None
    decreases |a|
  {
    if a == [] {
      assert a + b == b;
      if DecodeAll(decode, b).Some? { assert [] + DecodeAll(decode, b).value == DecodeAll(decode, b).value; }
    } else {
      assert (a + b)[1..] == a[1..] + b;
      DecodeAppend(decode, a[1..], b);
      if DecodeAll(decode, a + b).Some? {
        var ev, x, y := decode(a[0]).value, DecodeAll(decode, a[1..]).value, DecodeAll(decode, b).value;
        assert [ev] + (x + y) == [ev] + x + y;
      }
    }
  }

  /** Decoding the elements and pushing the records. */
  function Assemble(decode: Decoder, s: Asm, elems: seq<seq<byte>>): (out: Result<Asm>)
    requires Shape(s)
    ensures out.Ok? ==> Shape(out.value)
  {
    match DecodeAll(decode, elems)
    case None => Err
    case Some(evs) => PushAll(s, evs)
  }

  lemma {:induction false} AssembleAppend(decode: Decoder, s: Asm, a: seq<seq<byte>>, b: seq<seq<byte>>)
    requires Shape(s)
    ensures Assemble(decode, s, a + b) ==
            (if DecodeAll(decode, b).None? then Err
             else match Assemble(decode, s, a) case Err => Err case Ok(t) => Assemble(decode, t, b))
  {
    DecodeAppend(decode, a, b);
    if DecodeAll(decode, a).Some? && DecodeAll(decode, b).Some? {
      PushAllAppend(s, DecodeAll(decode, a).value, DecodeAll(decode, b).value);
    }
  }

  // ---- reading is scanning, decoding and assembling -----------------------

  /** Draining assembles the elements that draining finds. */
  lemma {:induction false} DrainAssembles(decode: Decoder, r: Reader)
    requires Shape(r.asm) && !r.phase.Bad?
    ensures var d := Drain(r.phase, r.unread);
            var s := Assemble(decode, r.asm, d.elems);
            DrainInto(decode, r) == if d.phase.Bad? || s.Err? then Err else Ok(Reader(d.phase, d.unread, s.value))
    decreases |r.unread|
  {
    hide Push;
    NextConsumes(r.phase, r.unread);
    NextPhase(r.phase, r.unread);
    match NextElement(r.phase, r.unread)
    case Element(e, p, u) =>
      var d := Drain(p, u);
      assert ([e] + d.elems)[1..] == d.elems;
      if decode(e).Some? {
        var ev := decode(e).value;
        var pushed := Push(r.asm, ev);
        if pushed.Ok? { DrainAssembles(decode, Reader(p, u, pushed.value)); }
        if DecodeAll(decode, d.elems).Some? {
          var evs := DecodeAll(decode, d.elems).value;
          assert ([ev] + evs)[0] == ev && ([ev] + evs)[1..] == evs;
        }
      }
    case _ =>
  }

  lemma {:induction false} NextPhase(p: Phase, unread: seq<byte>)
    requires !p.Bad?
    ensures !NextElement(p, unread).Failed? ==> !NextElement(p, unread).phase.Bad?
    decreases |unread|
  {
    if unread != [] && !Step(p, unread[0]).Bad? { NextPhase(Step(p, unread[0]), unread[1..]); }
  }

  /** All reads together assemble the elements all chunks together yield. */
  lemma {:induction false} ProcessAssembles(decode: Decoder, r: Reader, src: seq<Read>)
    requires Shape(r.asm) && !r.phase.Bad?
    ensures var f := Feeds(r.phase, r.unread, Chunks(src));
            var s := Assemble(decode, r.asm, f.elems);
            Process(decode, r, src) ==
            if !Intact(src) || f.phase.Bad? || s.Err? then Err else Ok(Reader(f.phase, f.unread, s.value))
    decreases |src|
  {
    hide Push;
    hide DrainInto;
    hide Drain;
    if src != [] {
      var chunks := Chunks(src);
      assert chunks[1..] == Chunks(Later(src)) && chunks[0] == src[0].bytes;
      if src[0].bytes == [] {
        ProcessAssembles(decode, r, Later(src));
      } else {
        var fed := r.(unread := r.unread + src[0].bytes);
        DrainAssembles(decode, fed);
        var d := Drain(fed.phase, fed.unread);
        var e := Feeds(d.phase, d.unread, Chunks(Later(src)));
        AssembleAppend(decode, r.asm, d.elems, e.elems);
        if DrainInto(decode, fed).Ok? {
          ProcessAssembles(decode, DrainInto(decode, fed).value, Later(src));
        }
      }
    }
  }

  // ---- the groups handed out ----------------------------------------------

  /** The completed groups from the i-th on. */
  function GroupsFrom(s: Asm, i: nat): seq<seq<Crossing>>
    requires i <= |s.groupEnds|
    decreases |s.groupEnds| - i
  {
    if i == |s.groupEnds| then [] else [Group(s, i)] + GroupsFrom(s, i + 1)
  }

  /** Completed groups never change. */
  lemma {:induction false} GroupKept(s: Asm, t: Asm, i: nat)
    requires Invariant(s) && Extends(s, t) && i < |s.groupEnds|
    ensures Group(t, i) == Group(s, i)
  {
    assert AssemblerInvariant.GroupAt(s.crossings, s.groupEnds, s.groupStart, i);
    var a, b := GroupBase(s.groupEnds, i), s.groupEnds[i];
    assert GroupBase(t.groupEnds, i) == a && t.groupEnds[i] == b;
    forall k | a <= k < b ensures t.crossings[k] == s.crossings[k] {
      assert KeptAt(s.crossings, t.crossings, s.groupStart, k);
    }
  }

  lemma {:induction false} GroupsKept(s: Asm, t: Asm, i: nat)
    requires Invariant(s) && Extends(s, t) && i <= |s.groupEnds|
    ensures |s.groupEnds| <= |t.groupEnds|
    ensures GroupsFrom(t, i) == GroupsFrom(s, i) + GroupsFrom(t, |s.groupEnds|)
    decreases |s.groupEnds| - i
  {
    if i < |s.groupEnds| {
      GroupKept(s, t, i);
      GroupsKept(s, t, i + 1);
    }
  }

  /** The groups tile the crossings. */
  lemma {:induction false} GroupsTile(s: Asm, i: nat)
    requires Invariant(s) && i <= |s.groupEnds|
    ensures GroupBase(s.groupEnds, i) <= s.groupStart <= |s.crossings|
    ensures Concat(GroupsFrom(s, i)) == s.crossings[GroupBase(s.groupEnds, i)..s.groupStart]
    decreases |s.groupEnds| - i
  {
    if i < |s.groupEnds| {
      assert AssemblerInvariant.GroupAt(s.crossings, s.groupEnds, s.groupStart, i);
      GroupsTile(s, i + 1);
      assert GroupBase(s.groupEnds, i + 1) == s.groupEnds[i];
      assert GroupsFrom(s, i)[1..] == GroupsFrom(s, i + 1);
    }
  }

  lemma {:induction false} DrainKeeps(decode: Decoder, r: Reader)
    requires Invariant(r.asm)
    ensures Shape(r.asm)
    ensures var out := DrainInto(decode, r); out.Ok? ==> Invariant(out.value.asm) && Extends(r.asm, out.value.asm)
    decreases |r.unread|
  {
    hide Push;
    hide Invariant;
    hide Extends;
    InvariantShape(r.asm);
    NextConsumes(r.phase, r.unread);
    match NextElement(r.phase, r.unread)
    case Failed =>
    case Starved(_, _) => ExtendsSelf(r.asm);
    case Element(e, p, u) =>
      if decode(e).Some? {
        PushKeepsInvariant(r.asm, decode(e).value);
        var pushed := Push(r.asm, decode(e).value);
        if pushed.Ok? {
          var t := Reader(p, u, pushed.value);
          DrainKeeps(decode, t);
          if DrainInto(decode, t).Ok? { ExtendsTransitive(r.asm, t.asm, DrainInto(decode, t).value.asm); }
        }
      }
  }

  lemma {:induction false} InvariantShape(s: Asm)
    requires Invariant(s)
    ensures Shape(s)
  {}

  lemma {:induction false} ExtendsSelf(s: Asm)
    requires Invariant(s)
    ensures Extends(s, s)
  {}

  /** Once every read has been processed to `e`, the groups handed out are all of `e`'s, and
      the end is what finishing `e` says. */
  function Conclusion(e: Reader, next: nat): Feed
    requires Shape(e.asm) && next <= |e.asm.groupEnds|
  {
    var n := |e.asm.groupEnds|;
    var (t, failure) := FinishStream(e, n);
    if failure.Some? then Feed(GroupsFrom(e.asm, next), Stopped(failure.value))
    else Feed(GroupsFrom(e.asm, next) + (if n <= |t.groupEnds| then GroupsFrom(t, n) else []), Clean)
  }

  lemma {:induction false} ClosedOutcome(decode: Decoder, r: Reader, next: nat)
    requires Shape(r.asm) && next <= |r.asm.groupEnds|
    ensures Outcome(decode, r, next, [], true) == Feed(GroupsFrom(r.asm, next), Clean)
    decreases |r.asm.groupEnds| - next
  {
    if next < |r.asm.groupEnds| { ClosedOutcome(decode, r, next + 1); }
  }

  lemma {:induction false} NextConclusion(s: Asm, e: Reader, next: nat)
    requires Invariant(s) && Extends(s, e.asm) && Shape(e.asm) && next < |s.groupEnds|
    ensures |s.groupEnds| <= |e.asm.groupEnds|
    ensures var c := Conclusion(e, next + 1); Conclusion(e, next) == c.(groups := [Group(s, next)] + c.groups)
  {
    hide FinishStream;
    hide Invariant;
    GroupKept(s, e.asm, next);
    var (t, failure) := FinishStream(e, |e.asm.groupEnds|);
    if failure.None? {
      var rest := if |e.asm.groupEnds| <= |t.groupEnds| then GroupsFrom(t, |e.asm.groupEnds|) else [];
      assert [Group(s, next)] + GroupsFrom(e.asm, next + 1) + rest == [Group(s, next)] + (GroupsFrom(e.asm, next + 1) + rest);
    }
  }

  lemma {:induction false} FinishStreamKeeps(r: Reader, next: nat)
    requires Invariant(r.asm)
    ensures Shape(r.asm)
    ensures var (t, failure) := FinishStream(r, next); failure.None? ==> Invariant(t) && Extends(r.asm, t)
  {
    hide Finish;
    hide Invariant;
    hide Extends;
    FinishKeepsInvariant(r.asm);
  }

  lemma {:induction false} PumpKeeps(decode: Decoder, r: Reader, read: Read)
    requires Invariant(r.asm)
    ensures Shape(r.asm)
    ensures var out := Pump(decode, r, read); out.Ok? ==> Invariant(out.value.asm) && Extends(r.asm, out.value.asm)
  {
    hide Invariant;
    hide Extends;
    hide DrainInto;
    InvariantShape(r.asm);
    ExtendsSelf(r.asm);
    DrainKeeps(decode, r.(unread := r.unread + read.bytes));
  }

  lemma {:induction false} ExtendsGroups(s: Asm, t: Asm)
    requires Extends(s, t)
    ensures |s.groupEnds| <= |t.groupEnds|
  {}

  lemma {:induction false} OutcomeConcludes(decode: Decoder, r: Reader, next: nat, src: seq<Read>)
    requires Invariant(r.asm) && next <= |r.asm.groupEnds|
    ensures Shape(r.asm)
    ensures var p := Process(decode, r, src);
            && (p.Ok? ==> && Extends(r.asm, p.value.asm) && Invariant(p.value.asm)
                          && next <= |p.value.asm.groupEnds|
                          && Outcome(decode, r, next, src, false) == Conclusion(p.value, next))
            && (p.Err? ==> Outcome(decode, r, next, src, false).end == Stopped(Malformed))
    decreases |src|, |r.asm.groupEnds| - next
  {
    hide Invariant;
    hide Extends;
    hide Pump;
    hide FinishStream;
    InvariantShape(r.asm);
    var p := Process(decode, r, src);
    if next < |r.asm.groupEnds| {
      OutcomeConcludes(decode, r, next + 1, src);
      if p.Ok? { NextConclusion(r.asm, p.value, next); }
    } else if src == [] {
      ExtendsSelf(r.asm);
      FinishStreamKeeps(r, next);
      var (t, failure) := FinishStream(r, next);
      if failure.None? {
        ExtendsGroups(r.asm, t);
        ClosedOutcome(decode, r.(asm := t), next);
        assert [] + GroupsFrom(t, next) == GroupsFrom(t, next);
      }
    } else {
      PumpKeeps(decode, r, src[0]);
      var pumped := Pump(decode, r, src[0]);
      if pumped.Ok? {
        ExtendsGroups(r.asm, pumped.value.asm);
        OutcomeConcludes(decode, pumped.value, next, Later(src));
        if p.Ok? { ExtendsTransitive(r.asm, pumped.value.asm, p.value.asm); }
      }
    }
  }

  // ---- the stream in one pass -----------------------------------------------

  /** What one pass of the scanner over all the bytes makes of them: the crossings of a closed array
      of records that all decode. */
  function OnePass(decode: Decoder, bytes: seq<byte>): (out: Result<Asm>)
    ensures out.Ok? ==> Shape(out.value)
  {
    var r := ScanBytes(Before, bytes);
    if !r.phase.Closed? then Err
    else
      match DecodeAll(decode, r.elems)
      case None => Err
      case Some(evs) => Reconstruct(evs)
  }

  /** Bytes after the closing bracket that the reader gets to see are separators. */
  predicate TailOk(src: seq<Read>) {
    TailExamined(Before, Chunks(src)) ==> AllSeparators(ScanBytes(Before, BytesOf(src)).rest)
  }

  /** The state after all reads, in terms of the bytes alone. */
  lemma {:induction false} ProcessStream(decode: Decoder, src: seq<Read>)
    ensures var r := ScanBytes(Before, BytesOf(src));
            var s := Assemble(decode, EMPTY, r.elems);
            var p := Process(decode, START, src);
            && (p.Ok? <==> Intact(src) && !r.phase.Bad? && s.Ok? && (r.phase.Closed? ==> TailOk(src)))
            && (p.Ok? ==> p.value.phase == r.phase && p.value.asm == s.value && (!r.phase.Closed? ==> p.value.unread == []))
  {
    hide Push;
    hide ScanBytes;
    hide Feeds;
    hide TailExamined;
    ProcessAssembles(decode, START, src);
    ChunkIndependent(Before, Chunks(src));
  }

  /** For every way the bytes arrive: the stream ends cleanly if and only if one pass over the bytes
      succeeds (and no read failed and nothing but separators was seen after the array), and then the
      call groups handed out are those of the pass, so that their concatenation is exactly the
      crossings of `reconstructCrossings`. */
  lemma {:induction false} StreamIsOnePass(decode: Decoder, src: seq<Read>)
    ensures var f, b := Stream(decode, src), OnePass(decode, BytesOf(src));
            && (f.end.Clean? <==> b.Ok? && Intact(src) && TailOk(src))
            && (f.end.Clean? ==> f.groups == GroupsFrom(b.value, 0) && Concat(f.groups) == b.value.crossings)
  {
    hide ScanBytes;
    hide TailOk;
    hide Outcome;
    hide Process;
    hide Intact;
    ProcessStream(decode, src);
    EmptyInvariant();
    OutcomeConcludes(decode, START, 0, src);
    var r := ScanBytes(Before, BytesOf(src));
    var p := Process(decode, START, src);
    if p.Ok? {
      var e := p.value;
      FinishKeepsInvariant(e.asm);
      if Finish(e.asm).Ok? && e.phase.Closed? {
        var t := Finish(e.asm).value;
        GroupsKept(e.asm, t, 0);
        GroupsTile(t, 0);
        assert t.crossings[0..|t.crossings|] == t.crossings;
      }
    }
  }

  // ---- truncation is safe -------------------------------------------------

  /** A run that nothing can close: there is no frame it could belong to. */
  ghost predicate Doomed(s: Asm) {
    Shape(s) && s.stack == [] && s.pending.Some? && ParseImportLabel(s.pending.value.tag).None?
  }

  lemma {:induction false} DoomedPush(s: Asm, ev: Record)
    requires Doomed(s)
    ensures var r := Push(s, ev); r.Ok? ==> Doomed(r.value)
  {
    hide ParseImportLabel;
    hide ParseBindingName;
    assert CloseRun(s).Err?;
  }

  lemma {:induction false} DoomedRun(s: Asm, evs: seq<Record>)
    requires Doomed(s)
    ensures var r := PushAll(s, evs); r.Ok? ==> Finish(r.value).Err?
    decreases |evs|
  {
    if evs == [] {
      assert CloseRun(s).Err?;
    } else {
      DoomedPush(s, evs[0]);
      if Push(s, evs[0]).Ok? { DoomedRun(Push(s, evs[0]).value, evs[1..]); }
    }
  }

  /** Finishing early fails only on an open call, unless the recording is refused anyway. */
  lemma {:induction false} EarlyFinish(s: Asm, evs: seq<Record>)
    requires Shape(s) && PushAll(s, evs).Ok? && Finish(PushAll(s, evs).value).Ok?
    ensures Finish(s).Err? ==> s.stack != []
  {
    hide ParseImportLabel;
    hide PushAll;
    if s.stack == [] && s.pending.Some? {
      var run := s.pending.value;
      ImportTag(run.tag);
      if ParseImportLabel(run.tag).Some? {
        LooseImportFinishes(s);
      } else {
        DoomedRun(s, evs);
      }
    }
  }

  lemma {:induction false} ImportTag(tag: string)
    ensures ParseImportLabel(tag).Some? ==> tag != ""
  {}

  /** An import at depth 0 is over at end of input. */
  lemma {:induction false} LooseImportFinishes(s: Asm)
    requires Shape(s) && s.stack == [] && s.pending.Some?
    requires ParseImportLabel(s.pending.value.tag).Some? && s.pending.value.tag != ""
    ensures Finish(s).Ok?
  {
    hide ParseImportLabel;
    var t := CloseRun(s).value;
    if t.stack != [] { assert Pop(t).stack == []; }
  }

  /** How a stream that is cut short says so: the worst of bytes of an unfinished record, an open
      crossing, and an array that was not closed, with what was open and what was unfinished. */
  function CutFailure(p: Phase, s: Asm, groups: nat): Failure
    requires Shape(s)
  {
    if p.Inside? then Truncated(MidRecord, groups, |s.stack|, |p.partial|)
    else if Finish(s).Err? then Truncated(MidCrossing, groups, |s.stack|, 0)
    else Truncated(Unterminated, groups, 0, 0)
  }

  /** Cutting a recording that is read to its end anywhere before its closing bracket: for every way
      the remaining bytes arrive, a prefix of the same call groups is handed out, followed by a
      truncation that says how many, what kind, how many crossings were open and how many bytes of a
      record were left over. */
  lemma {:induction false} TruncationIsSafe(decode: Decoder, whole: seq<byte>, cut: nat, src: seq<Read>)
    requires OnePass(decode, whole).Ok?
    requires cut <= |whole| && !ScanBytes(Before, whole[..cut]).phase.Closed?
    requires Intact(src) && BytesOf(src) == whole[..cut]
    ensures var f, b := Stream(decode, src), OnePass(decode, whole).value;
            var seen := ScanBytes(Before, whole[..cut]);
            var s := Assemble(decode, EMPTY, seen.elems);
            && s.Ok?
            && f.groups == GroupsFrom(s.value, 0) && f.groups <= GroupsFrom(b, 0)
            && f.end == Stopped(CutFailure(seen.phase, s.value, |f.groups|))
            && (f.end.failure.kind.MidCrossing? ==> f.end.failure.openCrossings > 0)
  {
    hide Push;
    hide Finish;
    hide Outcome;
    hide Process;
    hide ScanBytes;
    hide Invariant;
    hide Extends;
    var seen, all := ScanBytes(Before, whole[..cut]), ScanBytes(Before, whole);
    assert whole[..cut] + whole[cut..] == whole;
    RunAppend(Before, whole[..cut], whole[cut..]);
    var later := ScanBytes(seen.phase, whole[cut..]);
    AssembleAppend(decode, EMPTY, seen.elems, later.elems);
    DecodeAppend(decode, seen.elems, later.elems);
    var s := Assemble(decode, EMPTY, seen.elems).value;
    var evs := DecodeAll(decode, later.elems).value;
    var t := PushAll(s, evs).value;
    EarlyFinish(s, evs);
    ProcessStream(decode, src);
    EmptyInvariant();
    OutcomeConcludes(decode, START, 0, src);
    RunKeepsInvariant(s, evs);
    FinishKeepsInvariant(t);
    ExtendsTransitive(s, t, Finish(t).value);
    GroupsKept(s, Finish(t).value, 0);
    InsideHasBytes(Before, whole[..cut]);
    GroupsCount(s, 0);
  }

  lemma {:induction false} GroupsCount(s: Asm, i: nat)
    requires i <= |s.groupEnds|
    ensures |GroupsFrom(s, i)| == |s.groupEnds| - i
    decreases |s.groupEnds| - i
  {
    if i < |s.groupEnds| { GroupsCount(s, i + 1); }
  }

  lemma {:induction false} InsideHasBytes(p: Phase, bytes: seq<byte>)
    requires p.Inside? ==> p.partial != []
    ensures var q := ScanBytes(p, bytes).phase; q.Inside? ==> q.partial != []
    decreases |bytes|
  {
    if bytes != [] && !p.Closed? && !p.Bad? { InsideHasBytes(Step(p, bytes[0]), bytes[1..]); }
  }
}
