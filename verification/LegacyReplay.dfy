/** Record, assemble, replay in the older format (internal/boundarylog/recording.go:381-402,
    replay.go:987-1015): the `() -> ()` imported calls leave nothing in the recording, and its replay
    counts them as unchecked. */
module LegacyReplay {
  import opened Wrappers
  import opened Labels
  import opened Crossings
  import opened AssemblerSpec
  import opened AssemblerInvariant
  import opened ReplaySpec
  import opened Faithful
  import opened StreamSpec
  import opened StreamTheorems
  import opened EndToEnd
  import opened RecordReplay
  import opened LegacyRoundTrip
  import Erasure = LegacyErasure
  import Producer

  /** The imported calls `evs`: the host's writes of a call with values are kept under its crossing
      number, from `p` on; a call without values has neither. */
  ghost predicate RecordsErased<S>(m: Module<S>, f: Producer.Forest, evs: seq<ImportEvent>, p: nat)
    decreases f
  {
    if f.Nil? then evs == []
    else
      && evs != [] && f.head.ImportCall? && f.head.body.Nil?
      && RecordsImport(m, f.head.index, f.head.args, f.head.results, evs[0])
      && if m.imports[f.head.index] == Signature([], [])
         then evs[0].at.None? && RecordsErased(m, f.tail, evs[1..], p)
         else evs[0].at == Some(p) && RecordsErased(m, f.tail, evs[1..], p + 1)
  }

  function ShownCount(evs: seq<ImportEvent>): nat { |Keep(ImportsMade(evs))| }

  ghost predicate RecordsSession<S>(m: Module<S>, f: Producer.Forest, ex: seq<ExportEvent>, p: nat)
    decreases f
  {
    if f.Nil? then ex == []
    else
      && ex != [] && f.head.ExportCall?
      && RecordsExport(m, f.head.name, f.head.args, f.head.results, ex[0])
      && RecordsErased(m, f.head.body, ex[0].imports, p + 1)
      && RecordsSession(m, f.tail, ex[1..], p + 1 + ShownCount(ex[0].imports))
  }

  // ---- signatures make a session readable ------------------------------------------------

  function Takes<S>(m: Module<S>): set<uint32> { set i: uint32 | i < |m.imports| && m.imports[i].params != [] }

  lemma {:induction false} ImportsSigned<S>(m: Module<S>, f: Producer.Forest, evs: seq<ImportEvent>, p: nat)
    requires RecordsErased(m, f, evs, p)
    ensures Imports(f) && Erasure.Signed(f, Takes(m)) && Erasure.CallsUnderArguments(f)
    decreases f
  {
    if f.Cons? {
      if Valueless(m.imports[f.head.index]) { ImportsSigned(m, f.tail, evs[1..], p); }
      else { ImportsSigned(m, f.tail, evs[1..], p + 1); }
    }
  }

  lemma {:induction false} SessionSigned<S>(m: Module<S>, f: Producer.Forest, ex: seq<ExportEvent>, p: nat)
    requires RecordsSession(m, f, ex, p)
    ensures Exports(f) && Erasure.Signed(f, Takes(m)) && Erasure.CallsUnderArguments(f)
    decreases f
  {
    if f.Cons? {
      ImportsSigned(m, f.head.body, ex[0].imports, p + 1);
      SessionSigned(m, f.tail, ex[1..], p + 1 + ShownCount(ex[0].imports));
    }
  }

  // ---- the crossings read back show the execution ------------------------------------------

  lemma {:induction false} ImportsErasedInOrder<S>(m: Module<S>, rec: Recording, f: Producer.Forest, evs: seq<ImportEvent>, p: nat, q: nat)
    requires RecordsErased(m, f, evs, p) && Imports(f) && !rec.marked
    requires p <= q <= |rec.crossings| && rec.crossings[p..q] == Erasure.ErasedImports(f, 1, p)
    ensures q == p + ShownCount(evs) && ShownFrom(m, rec, ImportsMade(evs), p, q)
    ensures forall k :: p <= k < q ==> rec.crossings[k].kind.Import? && rec.crossings[k].depth == 1
    decreases f
  {
    hide Shows;
    hide Erasure.ErasedImport;
    if f.Cons? {
      hide ShownFrom;
      hide ShownCount;
      var c := OldCrossing(f.head, 1, p);
      ErasedLeaf(f.head, 1, p);
      if Valueless(m.imports[f.head.index]) {
        assert [] + Erasure.ErasedImports(f.tail, 1, p) == Erasure.ErasedImports(f.tail, 1, p);
        ImportsErasedInOrder(m, rec, f.tail, evs[1..], p, q);
        HiddenShows(m, rec, evs, p, q);
      } else {
        FirstOf(rec.crossings, p, q, c, Erasure.ErasedImports(f.tail, 1, p + 1));
        ImportShows(m, rec, evs[0], p);
        ImportsErasedInOrder(m, rec, f.tail, evs[1..], p + 1, q);
        ShownShows(m, rec, evs, p, q);
      }
    }
  }

  lemma {:induction false} ShownShows<S>(m: Module<S>, rec: Recording, evs: seq<ImportEvent>, p: nat, q: nat)
    requires evs != [] && evs[0].at.Some? && RightlyErased(m, rec, evs[0]) && Shows(m, rec, MadeImport(evs[0]), p)
    requires ShownFrom(m, rec, ImportsMade(evs[1..]), p + 1, q)
    ensures ShownFrom(m, rec, ImportsMade(evs), p, q) && ShownCount(evs) == 1 + ShownCount(evs[1..])
  {
    hide Shows;
    assert ImportsMade(evs)[0] == MadeImport(evs[0]) && ImportsMade(evs)[1..] == ImportsMade(evs[1..]);
  }

  lemma {:induction false} HiddenShows<S>(m: Module<S>, rec: Recording, evs: seq<ImportEvent>, p: nat, q: nat)
    requires evs != [] && evs[0].at.None? && RightlyErased(m, rec, evs[0])
    requires ShownFrom(m, rec, ImportsMade(evs[1..]), p, q)
    ensures ShownFrom(m, rec, ImportsMade(evs), p, q) && ShownCount(evs) == ShownCount(evs[1..])
  {
    hide Shows;
    assert ImportsMade(evs)[0] == MadeImport(evs[0]) && ImportsMade(evs)[1..] == ImportsMade(evs[1..]);
    assert [] + Keep(ImportsMade(evs[1..])) == Keep(ImportsMade(evs[1..]));
  }

  lemma {:induction false} ErasedLeaf(call: Producer.Call, depth: nat, p: nat)
    requires call.body.Nil?
    ensures Erasure.ErasedImport(call, depth, p) == if Erasure.Valueless(call) then [] else [OldCrossing(call, depth, p)]
  {
    assert [OldCrossing(call, depth, p)] + [] == [OldCrossing(call, depth, p)];
  }

  /** What is read back of a session: exported calls at depth 0, with plain names, and imports below. */
  ghost predicate PlainCrossing(c: Crossing) {
    if c.kind.Export? then c.depth == 0 && ParseImportLabel(c.name).None? else c.depth > 0
  }

  lemma {:induction false} SessionInOrder<S>(m: Module<S>, rec: Recording, f: Producer.Forest, ex: seq<ExportEvent>, p: nat)
    requires RecordsSession(m, f, ex, p) && Exports(f) && PlainNames(f) && !rec.marked
    requires p <= |rec.crossings| && rec.crossings[p..] == Erasure.ErasedCalls(f, 0, p)
    ensures ShownFrom(m, rec, AllMade(ex), p, |rec.crossings|)
    ensures forall k :: p <= k < |rec.crossings| ==> PlainCrossing(rec.crossings[k])
    decreases f
  {
    hide RecordsErased;
    hide RecordsExport;
    hide ShownFrom;
    hide ParseImportLabel;
    if f.Nil? {
      NothingShown(m, rec, p);
    } else {
      SessionCallInOrder(m, rec, f, ex, p);
      var q := p + 1 + ShownCount(ex[0].imports);
      SessionInOrder(m, rec, f.tail, ex[1..], q);
      ShownFromAppend(m, rec, CallMade(ex[0]), AllMade(ex[1..]), p, q, |rec.crossings|);
      assert AllMade(ex) == CallMade(ex[0]) + AllMade(ex[1..]);
    }
  }

  lemma {:induction false} SessionCallInOrder<S>(m: Module<S>, rec: Recording, f: Producer.Forest, ex: seq<ExportEvent>, p: nat)
    requires f.Cons? && RecordsSession(m, f, ex, p) && Exports(f) && PlainNames(f) && !rec.marked
    requires p <= |rec.crossings| && rec.crossings[p..] == Erasure.ErasedCalls(f, 0, p)
    ensures var q := p + 1 + ShownCount(ex[0].imports);
            && q <= |rec.crossings| && rec.crossings[q..] == Erasure.ErasedCalls(f.tail, 0, q)
            && ShownFrom(m, rec, CallMade(ex[0]), p, q)
            && forall k :: p <= k < q ==> PlainCrossing(rec.crossings[k])
  {
    hide RecordsErased;
    hide Shows;
    hide ParseImportLabel;
    hide Erasure.ErasedImports;
    hide Erasure.ErasedCalls;
    hide ShownCount;
    hide ShownFrom;
    hide CallMade;
    var e := ex[0];
    var c := OldCrossing(f.head, 0, p);
    var body := Erasure.ErasedImports(f.head.body, 1, p + 1);
    var q := p + 1 + |body|;
    FirstErased(f, 0, p);
    Slices(rec.crossings, p, c, body, Erasure.ErasedCalls(f.tail, 0, q));
    ImportsErasedInOrder(m, rec, f.head.body, e.imports, p + 1, q);
    ExportShows(m, rec, e, p);
    CallShows(m, rec, e, p, q);
  }

  lemma {:induction false} CallShows<S>(m: Module<S>, rec: Recording, e: ExportEvent, p: nat, q: nat)
    requires Shows(m, rec, MadeExport(e.name, e.args, e.results), p) && ShownFrom(m, rec, ImportsMade(e.imports), p + 1, q)
    ensures ShownFrom(m, rec, CallMade(e), p, q)
  {
    hide Shows;
    assert CallMade(e)[0] == MadeExport(e.name, e.args, e.results) && CallMade(e)[1..] == ImportsMade(e.imports);
  }

  lemma {:induction false} FirstErased(f: Producer.Forest, depth: nat, p: nat)
    requires Exports(f) && f.Cons?
    ensures var body := Erasure.ErasedImports(f.head.body, depth + 1, p + 1);
            Erasure.ErasedCalls(f, depth, p) ==
            [OldCrossing(f.head, depth, p)] + body + Erasure.ErasedCalls(f.tail, depth, p + 1 + |body|)
  {
    hide Erasure.ErasedImports;
  }

  /** In such a recording every call group is one exported call. */
  lemma {:induction false} PlainGroups(s: Asm, i: nat)
    requires Invariant(s) && i <= |s.groupEnds|
    requires forall k :: 0 <= k < |s.crossings| ==> PlainCrossing(s.crossings[k])
    ensures forall k :: 0 <= k < |GroupsFrom(s, i)| ==> GroupShape(GroupsFrom(s, i)[k])
    decreases |s.groupEnds| - i
  {
    hide GroupShape;
    hide ParseImportLabel;
    if i < |s.groupEnds| {
      PlainGroups(s, i + 1);
      PlainGroupShape(s, i);
      assert AssemblerInvariant.GroupAt(s.crossings, s.groupEnds, s.groupStart, i);
      assert Group(s, i)[0] == s.crossings[GroupBase(s.groupEnds, i)];
    }
  }

  // ---- the theorem ---------------------------------------------------------------------------

  /** Whatever execution the guest has, its recording in the older format is read back and accepted by
      both drivers; the report counts the calls with values, and each `() -> ()` call as unchecked. */
  lemma {:induction false} LegacyRecordedIsReplayed<S>(m: Module<S>, f: Producer.Forest, ex: seq<ExportEvent>, points: seq<S>, fuel: nat)
    requires Producer.RenderableForest(f) && PlainNames(f) && RecordsSession(m, f, ex, 0)
    requires Execution(m, ex, points) && points[0] == m.init && fuel > MostImports(ex)
    ensures var r := Reconstruct(LegacyRecording(f));
            && r.Ok?
            && var report := Pass(Report(|ex|, ImportsShown(ex), ImportsErased(ex), 0, |ex|, points, |ex| + ImportsShown(ex)));
               && Replay(m, RecordingOfAsm(r.value), 0, 0, None, fuel) == report
               && StreamingReplay(m, GroupsFrom(r.value, 0), CleanEnd, fuel) == report
  {
    hide Replay;
    hide StreamingReplay;
    hide Reconstruct;
    hide Execution;
    hide Invariant;
    hide ShownFrom;
    hide RecordsSession;
    hide GroupShape;
    hide LegacyRecording;
    hide Erasure.ErasedCalls;
    hide Erasure.Signed;
    SessionSigned(m, f, ex, 0);
    Erasure.SignedIsReadable(f, Takes(m));
    Erasure.ReconstructUndoesLegacyRecording(f);
    var s := Reconstruct(LegacyRecording(f)).value;
    ReconstructInvariant(LegacyRecording(f));
    assert s.crossings[0..] == s.crossings;
    SessionInOrder(m, RecordingOfAsm(s), f, ex, 0);
    PlainGroups(s, 0);
    BothDrivers(m, s, ex, points, fuel);
  }
}
