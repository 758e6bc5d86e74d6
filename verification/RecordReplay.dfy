/** Record, assemble, replay: a recording of an execution of the guest, read back, is accepted by both
    replay drivers with the execution's own calls and states (internal/boundarylog/recording.go:240-274,
    replay.go:224-380, stream_replay.go:58-276). `LegacyReplay` says the same of the older format. */
module RecordReplay {
  import opened Wrappers
  import opened Crossings
  import opened AssemblerSpec
  import opened AssemblerInvariant
  import opened ReplaySpec
  import opened Faithful
  import opened Agreement
  import opened StreamSpec
  import opened StreamTheorems
  import opened EndToEnd
  import Producer
  import RoundTrip

  // ---- what a recording of an execution holds ---------------------------------------

  /** These values of an imported call are the ones of the execution. */
  ghost predicate RecordsImport<S>(m: Module<S>, index: nat, args: seq<RawValue>, results: seq<RawValue>, e: ImportEvent) {
    && index == e.index && index < |m.imports|
    && Decodes(m.decode, args, m.imports[index].params, e.args)
    && Decodes(m.decode, results, m.imports[index].results, e.results)
  }

  ghost predicate RecordsExport<S>(m: Module<S>, name: string, args: seq<RawValue>, results: seq<RawValue>, e: ExportEvent) {
    && name == e.name && name != "" && name in m.exports
    && (name in m.manifest ==> m.manifest[name] == Some(m.exports[name]))
    && Decodes(m.decode, args, m.exports[name].params, e.args)
    && Decodes(m.decode, results, m.exports[name].results, e.results)
  }

  /** The imported calls `evs`, the host's writes of each kept under its crossing number, from `p` on. */
  ghost predicate RecordsImports<S>(m: Module<S>, f: Producer.Forest, evs: seq<ImportEvent>, p: nat)
    decreases f
  {
    if f.Nil? then evs == []
    else
      && evs != [] && f.head.ImportCall? && f.head.body.Nil?
      && RecordsImport(m, f.head.index, f.head.args, f.head.results, evs[0])
      && evs[0].at == Some(p) && RecordsImports(m, f.tail, evs[1..], p + 1)
  }

  /** The exported calls `ex` and, inside each, its imported calls. */
  ghost predicate RecordsCalls<S>(m: Module<S>, f: Producer.Forest, ex: seq<ExportEvent>, p: nat)
    decreases f
  {
    if f.Nil? then ex == []
    else
      && ex != [] && f.head.ExportCall?
      && RecordsExport(m, f.head.name, f.head.args, f.head.results, ex[0])
      && RecordsImports(m, f.head.body, ex[0].imports, p + 1)
      && RecordsCalls(m, f.tail, ex[1..], p + 1 + |ex[0].imports|)
  }

  // ---- the crossings read back show the execution -----------------------------------

  /** A crossing of an imported call carries results whenever the import has some. */
  lemma {:induction false} ImportShows<S>(m: Module<S>, rec: Recording, e: ImportEvent, p: nat)
    requires p < |rec.crossings| && e.at == Some(p)
    requires var c := rec.crossings[p];
             c.kind.Import? && c.hasResults == (c.results != []) && RecordsImport(m, c.index, c.args, c.results, e)
    ensures Shows(m, rec, MadeImport(e), p)
  {}

  lemma {:induction false} ExportShows<S>(m: Module<S>, rec: Recording, e: ExportEvent, p: nat)
    requires p < |rec.crossings|
    requires var c := rec.crossings[p];
             TopLevelExport(c) && c.hasResults == (c.results != []) && RecordsExport(m, c.name, c.args, c.results, e)
    ensures Shows(m, rec, MadeExport(e.name, e.args, e.results), p)
  {}

  lemma {:induction false} FirstOf(cs: seq<Crossing>, p: nat, q: nat, c: Crossing, rest: seq<Crossing>)
    requires p <= q <= |cs| && cs[p..q] == [c] + rest
    ensures p < q && cs[p] == c && cs[p + 1..q] == rest
  {
    assert cs[p] == cs[p..q][0];
    assert cs[p + 1..q] == cs[p..q][1..];
  }

  lemma {:induction false} LeafPreorder(f: Producer.Forest, depth: nat, p: nat)
    requires f.Cons? && f.head.body.Nil?
    ensures Producer.PreorderForest(f, depth, p) ==
            [Producer.CrossingOf(f.head, depth, p)] + Producer.PreorderForest(f.tail, depth, p + 1)
  {
    hide Producer.CrossingOf;
    assert Producer.PreorderForest(f.head.body, depth + 1, p + 1) == [];
    assert Producer.Preorder(f.head, depth, p) == [Producer.CrossingOf(f.head, depth, p)];
  }

  lemma {:induction false} ImportsInOrder<S>(m: Module<S>, rec: Recording, f: Producer.Forest, evs: seq<ImportEvent>, p: nat, q: nat)
    requires RecordsImports(m, f, evs, p) && (f.Cons? ==> rec.marked)
    requires p <= q <= |rec.crossings| && rec.crossings[p..q] == Producer.PreorderForest(f, 1, p)
    ensures q == p + |evs| && ShownFrom(m, rec, ImportsMade(evs), p, q)
    ensures forall k :: p <= k < q ==> rec.crossings[k].kind.Import?
    decreases f
  {
    hide Shows;
    if f.Cons? {
      var c, rest := Producer.CrossingOf(f.head, 1, p), Producer.PreorderForest(f.tail, 1, p + 1);
      LeafPreorder(f, 1, p);
      hide Producer.PreorderForest;
      FirstOf(rec.crossings, p, q, c, rest);
      ImportShows(m, rec, evs[0], p);
      ImportsInOrder(m, rec, f.tail, evs[1..], p + 1, q);
      assert ImportsMade(evs)[0] == MadeImport(evs[0]) && ImportsMade(evs)[1..] == ImportsMade(evs[1..]);
    }
  }

  lemma {:induction false} Slices(cs: seq<Crossing>, p: nat, c: Crossing, body: seq<Crossing>, rest: seq<Crossing>)
    requires p <= |cs| && cs[p..] == [c] + body + rest
    ensures var q := p + 1 + |body|;
            && q <= |cs| && cs[p..q] == [c] + body && cs[p] == c && cs[p + 1..q] == body && cs[q..] == rest
  {
    var q := p + 1 + |body|;
    assert cs[p..q] == cs[p..][..1 + |body|];
    assert cs[p] == cs[p..][0];
    assert cs[p + 1..q] == cs[p..][1..1 + |body|];
    assert cs[q..] == cs[p..][1 + |body|..];
  }

  lemma {:induction false} BodyHasImport<S>(m: Module<S>, call: Producer.Call, evs: seq<ImportEvent>, p: nat)
    requires RecordsImports(m, call.body, evs, p)
    ensures call.body.Cons? ==> Producer.HasImport(call)
  {
    if call.body.Cons? {
      assert Producer.HasImport(call.body.head);
      assert Producer.HasImportForest(call.body);
    }
  }

  /** One exported call: its crossing, then those of its imported calls. */
  lemma {:induction false} CallInOrder<S>(m: Module<S>, rec: Recording, f: Producer.Forest, ex: seq<ExportEvent>, p: nat)
    requires f.Cons? && RecordsCalls(m, f, ex, p) && (Producer.HasImport(f.head) ==> rec.marked)
    requires p <= |rec.crossings| && rec.crossings[p..] == Producer.PreorderForest(f, 0, p)
    ensures var q := p + 1 + |ex[0].imports|;
            && |Producer.Preorder(f.head, 0, p)| == q - p
            && q <= |rec.crossings| && rec.crossings[p..q] == Producer.Preorder(f.head, 0, p)
            && rec.crossings[q..] == Producer.PreorderForest(f.tail, 0, q)
            && ShownFrom(m, rec, CallMade(ex[0]), p, q)
            && TopLevelExport(rec.crossings[p])
            && forall k :: p < k < q ==> rec.crossings[k].kind.Import?
  {
    hide Shows;
    hide RecordsImports;
    var e := ex[0];
    var c := Producer.CrossingOf(f.head, 0, p);
    var body := Producer.PreorderForest(f.head.body, 1, p + 1);
    var first := Producer.Preorder(f.head, 0, p);
    var q := p + |first|;
    BodyHasImport(m, f.head, e.imports, p + 1);
    Slices(rec.crossings, p, c, body, Producer.PreorderForest(f.tail, 0, q));
    ImportsInOrder(m, rec, f.head.body, e.imports, p + 1, q);
    ExportShows(m, rec, e, p);
    assert CallMade(e)[0] == MadeExport(e.name, e.args, e.results) && CallMade(e)[1..] == ImportsMade(e.imports);
  }

  lemma {:induction false} CallsInOrder<S>(m: Module<S>, rec: Recording, f: Producer.Forest, ex: seq<ExportEvent>, p: nat)
    requires RecordsCalls(m, f, ex, p) && (Producer.HasImportForest(f) ==> rec.marked)
    requires p <= |rec.crossings| && rec.crossings[p..] == Producer.PreorderForest(f, 0, p)
    ensures ShownFrom(m, rec, AllMade(ex), p, |rec.crossings|)
    ensures forall k :: p <= k < |rec.crossings| ==> !NestedExport(rec.crossings[k])
    ensures ImportsErased(ex) == 0
    decreases f
  {
    hide RecordsExport;
    hide RecordsImports;
    hide Producer.Preorder;
    hide ShownFrom;
    if f.Nil? {
      NothingShown(m, rec, p);
    } else {
      CallInOrder(m, rec, f, ex, p);
      var q := p + 1 + |ex[0].imports|;
      CallsInOrder(m, rec, f.tail, ex[1..], q);
      ShownFromAppend(m, rec, CallMade(ex[0]), AllMade(ex[1..]), p, q, |rec.crossings|);
      assert AllMade(ex) == CallMade(ex[0]) + AllMade(ex[1..]);
      NoneErased(m, f.head.body, ex[0].imports, p + 1);
    }
  }

  lemma {:induction false} NothingShown<S>(m: Module<S>, rec: Recording, p: nat)
    ensures ShownFrom(m, rec, [], p, p)
  {}

  lemma {:induction false} NoneErased<S>(m: Module<S>, f: Producer.Forest, evs: seq<ImportEvent>, p: nat)
    requires RecordsImports(m, f, evs, p)
    ensures ErasedCount(ImportsMade(evs)) == 0
    decreases f
  {
    if f.Cons? {
      NoneErased(m, f.tail, evs[1..], p + 1);
      assert ImportsMade(evs)[1..] == ImportsMade(evs[1..]);
    }
  }

  /** The groups of a recording of exported calls are one exported call each. */
  lemma {:induction false} GroupsInOrder<S>(m: Module<S>, s: Asm, f: Producer.Forest, ex: seq<ExportEvent>, p: nat, i: nat)
    requires RecordsCalls(m, f, ex, p) && Shape(s)
    requires p <= |s.crossings| && s.crossings[p..] == Producer.PreorderForest(f, 0, p)
    requires i <= |s.groupEnds| && s.groupEnds[i..] == RoundTrip.RootEnds(f, p) && GroupBase(s.groupEnds, i) == p
    ensures forall k :: 0 <= k < |GroupsFrom(s, i)| ==> GroupShape(GroupsFrom(s, i)[k])
    decreases f
  {
    hide RecordsExport;
    hide RecordsImports;
    if f.Cons? {
      CallInOrder(m, Recording(s.crossings, true), f, ex, p);
      var q := p + 1 + |ex[0].imports|;
      assert s.groupEnds[i] == s.groupEnds[i..][0] == q;
      assert s.groupEnds[i + 1..] == s.groupEnds[i..][1..];
      assert GroupBase(s.groupEnds, i + 1) == q;
      GroupsInOrder(m, s, f.tail, ex[1..], q, i + 1);
      assert Group(s, i) == s.crossings[p..q];
      assert GroupShape(Group(s, i));
    }
  }

  // ---- the theorem, current format ---------------------------------------------------

  /** Whatever execution the guest has, its recording in the current format is read back and accepted
      by both drivers; the report counts the execution's calls, leaves none unchecked, and passes
      through the execution's quiescent states. */
  lemma {:induction false} RecordedIsReplayed<S>(m: Module<S>, f: Producer.Forest, ex: seq<ExportEvent>, points: seq<S>, fuel: nat)
    requires Producer.RenderableForest(f) && RecordsCalls(m, f, ex, 0)
    requires Execution(m, ex, points) && points[0] == m.init && fuel > MostImports(ex)
    ensures var r := Reconstruct(Producer.Recording(f));
            && r.Ok?
            && var report := Pass(Report(|ex|, ImportsShown(ex), 0, 0, |ex|, points, |ex| + ImportsShown(ex)));
               && Replay(m, RecordingOfAsm(r.value), 0, 0, None, fuel) == report
               && StreamingReplay(m, GroupsFrom(r.value, 0), CleanEnd, fuel) == report
  {
    hide Replay;
    hide StreamingReplay;
    hide Reconstruct;
    hide Execution;
    hide Invariant;
    hide ShownFrom;
    hide RecordsCalls;
    hide GroupShape;
    RoundTrip.ReconstructUndoesRecording(f);
    var s := Reconstruct(Producer.Recording(f)).value;
    ReconstructInvariant(Producer.Recording(f));
    InvariantShape(s);
    AssembledIsNumbered(s);
    assert s.crossings[0..] == s.crossings && s.groupEnds[0..] == s.groupEnds;
    CallsInOrder(m, RecordingOfAsm(s), f, ex, 0);
    GroupsInOrder(m, s, f, ex, 0, 0);
    BothDrivers(m, s, ex, points, fuel);
  }

  /** An assembled recording that shows an execution, in groups of one exported call each. */
  lemma {:induction false} BothDrivers<S>(m: Module<S>, s: Asm, ex: seq<ExportEvent>, points: seq<S>, fuel: nat)
    requires Invariant(s) && s.groupStart == |s.crossings|
    requires Execution(m, ex, points) && points[0] == m.init && fuel > MostImports(ex)
    requires ShownFrom(m, RecordingOfAsm(s), AllMade(ex), 0, |s.crossings|)
    requires forall k :: 0 <= k < |s.crossings| ==> !NestedExport(s.crossings[k])
    requires forall k :: 0 <= k < |GroupsFrom(s, 0)| ==> GroupShape(GroupsFrom(s, 0)[k])
    ensures var report := Pass(Report(|ex|, ImportsShown(ex), ImportsErased(ex), 0, |ex|, points, |ex| + ImportsShown(ex)));
            && Replay(m, RecordingOfAsm(s), 0, 0, None, fuel) == report
            && StreamingReplay(m, GroupsFrom(s, 0), CleanEnd, fuel) == report
  {
    hide Replay;
    hide StreamingReplay;
    hide Execution;
    hide Invariant;
    hide GroupShape;
    hide ShownFrom;
    hide ShowsAll;
    hide AllRightlyErased;
    var rec := RecordingOfAsm(s);
    AssembledIsNumbered(s);
    PositionByPosition(m, rec, AllMade(ex), 0, |s.crossings|);
    KeptCount(ex);
    FaithfulIsReplayed(m, rec, ex, points, fuel);
    GroupsTile(s, 0);
    assert s.crossings[0..|s.crossings|] == s.crossings;
    DriversAgree(m, GroupsFrom(s, 0), fuel);
  }
}
