/** Recordings older than the import markers (internal/boundarylog/recording.go:381-402): both
    edges of an import are spelled like an export's, so an import is recovered from its value
    runs alone. What the assembler makes of any such recording, calls nested to any depth. */
module LegacyRoundTrip {
  import opened Wrappers
  import opened Labels
  import opened Crossings
  import opened AssemblerSpec
  import opened Producer
  import opened RoundTrip

  // ---- what is recorded --------------------------------------------------

  /** The host calls exports, outside of any call or while it serves an import. */
  predicate Exports(f: Forest)
    decreases f
  {
    f.Cons? ==> f.head.ExportCall? && Imports(f.head.body) && Exports(f.tail)
  }

  /** An export calls imports. */
  predicate Imports(f: Forest)
    decreases f
  {
    f.Cons? ==> f.head.ImportCall? && Exports(f.head.body) && Imports(f.tail)
  }

  predicate PlainNames(f: Forest)
    decreases f
  {
    f.Cons? ==>
      && (f.head.ExportCall? ==> ParseImportLabel(f.head.name).None?)
      && PlainNames(f.head.body) && PlainNames(f.tail)
  }

  function RenderOld(call: Call, t: Tables): Out
    decreases call
  {
    match call
    case ExportCall(lead, name, args, results, body) =>
      var before := Values(name, Arg, args, t.(functions := Intern(t.functions, name)));
      var inside := RenderOldForest(body, before.tables);
      var after := Values(name, Ret, results, inside.tables);
      Out((Delimiters(lead + 1) + Naming(name, t) + [Record.Call(IndexOf(t.functions, name))]
           + before.records + [Event(ExportEdge)])
          + inside.records
          + (after.records + [Return] + [Event(ExportEdge)]), after.tables)
    case ImportCall(lead, index, args, results, body) =>
      var before := Values(ImportLabel(index), Arg, args, t);
      var inside := RenderOldForest(body, before.tables);
      var after := Values(ImportLabel(index), Ret, results, inside.tables);
      Out((Delimiters(lead) + (before.records + [Event(ExportEdge)]))
          + inside.records
          + (after.records + [Event(ExportEdge)]), after.tables)
  }

  function RenderOldForest(f: Forest, t: Tables): Out
    decreases f
  {
    match f
    case Nil => Out([], t)
    case Cons(call, rest) =>
      var a := RenderOld(call, t);
      var b := RenderOldForest(rest, a.tables);
      Out(a.records + b.records, b.tables)
  }

  // ---- what is recovered -------------------------------------------------

  /** The crossings found so far inside an exported call, and the one that may still get a result run. */
  datatype Found = Found(crossings: seq<Crossing>, dangling: Option<nat>)

  const NOTHING := Found([], None)

  predicate FoundOk(f: Found) {
    f.dangling.Some? ==>
      && f.dangling.value < |f.crossings|
      && f.crossings[f.dangling.value].kind.Import? && !f.crossings[f.dangling.value].marked
  }

  /** A crossing of a recording without import markers. */
  function OldCrossing(call: Call, depth: nat, seqNo: nat): Crossing { CrossingOf(call, depth, seqNo).(marked := false) }

  /** An argument run always opens a new call. */
  function FindArguments(f: Found, call: Call, depth: nat, seqNo: nat): (r: Found)
    requires FoundOk(f) && call.ImportCall?
    ensures FoundOk(r)
  {
    if call.args == [] then f
    else
      var c := OldCrossing(call, depth, seqNo + |f.crossings|).(results := [], hasResults := false);
      Found(f.crossings + [c], Some(|f.crossings|))
  }

  /** A result run completes the open call if it is of the same import, and is a call of its own
      otherwise. */
  function FindResults(f: Found, call: Call, depth: nat, seqNo: nat): (r: Found)
    requires FoundOk(f) && call.ImportCall?
    ensures FoundOk(r)
  {
    if call.results == [] then f
    else if f.dangling.Some? && f.crossings[f.dangling.value].index == call.index then
      var d := f.dangling.value;
      Found(f.crossings[d := f.crossings[d].(results := call.results, hasResults := true)], None)
    else Found(f.crossings + [OldCrossing(call, depth, seqNo + |f.crossings|).(args := [])], None)
  }

  /** The calls the host makes while it serves an import are read as made inside the open call, if
      there is one. */
  function FindInside(f: Found, call: Call, depth: nat, seqNo: nat): (r: Found)
    requires FoundOk(f) && Exports(call.body)
    ensures FoundOk(r)
    decreases call, 0
  {
    var inner := depth + if f.dangling.Some? then 1 else 0;
    f.(crossings := f.crossings + FindCalls(call.body, inner, seqNo + |f.crossings|))
  }

  function FindImport(f: Found, call: Call, depth: nat, seqNo: nat): (r: Found)
    requires FoundOk(f) && call.ImportCall? && Exports(call.body)
    ensures FoundOk(r)
    decreases call, 1
  {
    FindResults(FindInside(FindArguments(f, call, depth, seqNo), call, depth, seqNo), call, depth, seqNo)
  }

  /** What the imports of one exported call are read as, numbered from `seqNo`. */
  function FindImports(f: Found, calls: Forest, depth: nat, seqNo: nat): (r: Found)
    requires FoundOk(f) && Imports(calls)
    ensures FoundOk(r)
    decreases calls
  {
    if calls.Nil? then f else FindImports(FindImport(f, calls.head, depth, seqNo), calls.tail, depth, seqNo)
  }

  function FindExport(call: Call, depth: nat, seqNo: nat): (r: seq<Crossing>)
    requires call.ExportCall? && Imports(call.body)
    ensures r != []
    decreases call
  {
    [OldCrossing(call, depth, seqNo)] + FindImports(NOTHING, call.body, depth + 1, seqNo + 1).crossings
  }

  /** What exported calls, one after the other, are read as. */
  function FindCalls(f: Forest, depth: nat, seqNo: nat): seq<Crossing>
    requires Exports(f)
    decreases f
  {
    if f.Nil? then []
    else
      var first := FindExport(f.head, depth, seqNo);
      first + FindCalls(f.tail, depth, seqNo + |first|)
  }

  // ---- the assembler finds exactly that ----------------------------------

  /** The frame `s` after the crossings of `f` have been found in it. */
  function InFrame(s: Asm, f: Found, t: Tables): Asm
    requires FoundOk(f)
  {
    var u := s.(crossings := s.crossings + f.crossings, functions := t.functions, varNames := t.varNames);
    if f.dangling.Some? then
      u.(stack := u.stack + [Open(|s.crossings| + f.dangling.value, ImportLabel(f.crossings[f.dangling.value].index))])
    else u
  }

  /** An open exported call. */
  ghost predicate FrameOpen(s: Asm) {
    && Shape(s) && s.pending.None? && s.stack != [] && TopCrossing(s).kind.Export?
    && ParseImportLabel(Top(s).tag).None?
  }

  lemma {:induction false} InFrameShape(s: Asm, f: Found, t: Tables)
    requires FrameOpen(s) && FoundOk(f)
    ensures var u := InFrame(s, f, t);
            && Shape(u) && u.stack != [] && Idle(u, t)
            && (f.dangling.Some? ==>
                  && TopCrossing(u) == f.crossings[f.dangling.value] && u.stack[..|u.stack| - 1] == s.stack
                  && Top(u) == Open(|s.crossings| + f.dangling.value, ImportLabel(f.crossings[f.dangling.value].index)))
            && (f.dangling.None? ==> u.stack == s.stack && TopCrossing(u) == TopCrossing(s))
  {}

  /** A run that does not continue the open call closes it. */
  lemma {:induction false} Closes(s: Asm, f: Found, t: Tables, keep: string)
    requires FrameOpen(s) && FoundOk(f)
    requires f.dangling.Some? ==> ImportLabel(f.crossings[f.dangling.value].index) != keep
    ensures Shape(InFrame(s, f, t))
    ensures CloseDanglingImports(InFrame(s, f, t), keep, false) == InFrame(s, f.(dangling := None), t)
  {
    hide ParseImportLabel;
    hide ImportLabel;
    var u, v := InFrame(s, f, t), InFrame(s, f.(dangling := None), t);
    InFrameShape(s, f, t);
    InFrameShape(s, f.(dangling := None), t);
    OneDangling(v, keep, false);
    if f.dangling.Some? {
      OneDangling(u, keep, false);
      assert Pop(u) == v;
    }
  }

  /** A crossing found in a frame in which nothing is open: by itself, or left open. */
  lemma {:induction false} FoundOne(s: Asm, f: Found, c: Crossing, t: Tables)
    requires FrameOpen(s) && c.kind.Import? && !c.marked && FoundOk(f)
    ensures var u := InFrame(s, f.(dangling := None), t);
            && Shape(u) && |u.crossings| == |s.crossings| + |f.crossings| && u.stack == s.stack && u.pending.None?
            && Top(u).tag == Top(s).tag
            && Append(u, c) == InFrame(s, Found(f.crossings + [c], None), t)
            && OpenCrossing(u, c, ImportLabel(c.index)) == InFrame(s, Found(f.crossings + [c], Some(|f.crossings|)), t)
  {
    hide ImportLabel;
    hide ParseImportLabel;
    InFrameShape(s, f.(dangling := None), t);
    assert s.crossings + f.crossings + [c] == s.crossings + (f.crossings + [c]);
  }

  lemma {:induction false} ImportRuns(u: Asm, index: uint32, values: seq<RawValue>)
    requires Shape(u) && u.stack != [] && Top(u).tag != ImportLabel(index)
    ensures ApplyRun(u, Run(ImportLabel(index), Arg, values)) ==
            Ok(OpenCrossing(u, Fresh(u, Import).(index := index, args := values), ImportLabel(index)))
    ensures ApplyRun(u, Run(ImportLabel(index), Ret, values)) ==
            Ok(Append(u, Fresh(u, Import).(index := index, results := values, hasResults := true)))
  {
    hide ParseImportLabel;
    ImportLabelRoundTrip(index);
  }

  /** The argument run of an import. */
  lemma {:induction false} ArgumentsFound(s: Asm, f: Found, call: Call, t: Tables)
    requires FrameOpen(s) && FoundOk(f) && call.ImportCall?
    ensures Shape(InFrame(s, f, t))
    ensures CloseRun(InFrame(s, f, t).(pending := RunOf(ImportLabel(call.index), Arg, call.args))) ==
            Ok(InFrame(s, FindArguments(f, call, |s.stack|, |s.crossings|), t))
  {
    hide ParseImportLabel;
    InFrameShape(s, f, t);
    ImportLabelRoundTrip(call.index);
    if f.dangling.Some? { ImportLabelRoundTrip(f.crossings[f.dangling.value].index); }
    hide ImportLabel;
    Closes(s, f, t, "");
    hide CloseDanglingImports;
    hide InFrame;
    if call.args != [] {
      var c := OldCrossing(call, |s.stack|, |s.crossings| + |f.crossings|).(results := [], hasResults := false);
      FoundOne(s, f, c, t);
      hide ApplyRun;
      ImportRuns(InFrame(s, f.(dangling := None), t), call.index, call.args);
      assert InFrame(s, f, t).(pending := RunOf(ImportLabel(call.index), Arg, call.args)).(pending := None) == InFrame(s, f, t);
    }
  }

  lemma {:induction false} ResultsContinue(s: Asm, f: Found, call: Call, t: Tables)
    requires FrameOpen(s) && FoundOk(f) && call.ImportCall? && call.results != []
    requires f.dangling.Some? && f.crossings[f.dangling.value].index == call.index
    ensures Shape(InFrame(s, f, t))
    ensures CloseRun(InFrame(s, f, t).(pending := RunOf(ImportLabel(call.index), Ret, call.results))) ==
            Ok(InFrame(s, FindResults(f, call, |s.stack|, |s.crossings|), t))
  {
    hide ParseImportLabel;
    InFrameShape(s, f, t);
    var u, d := InFrame(s, f, t), f.dangling.value;
    ImportLabelRoundTrip(call.index);
    hide ImportLabel;
    OneDangling(u, ImportLabel(call.index), false);
    hide CloseDanglingImports;
    var c := f.crossings[d].(results := call.results, hasResults := true);
    assert u.(pending := RunOf(ImportLabel(call.index), Ret, call.results)).(pending := None) == u;
    assert u.crossings[|s.crossings| + d := c] == s.crossings + f.crossings[d := c];
  }

  lemma {:induction false} ResultsAppended(s: Asm, f: Found, call: Call, t: Tables)
    requires FrameOpen(s) && FoundOk(f) && call.ImportCall? && call.results != []
    requires !(f.dangling.Some? && f.crossings[f.dangling.value].index == call.index)
    ensures Shape(InFrame(s, f, t))
    ensures CloseRun(InFrame(s, f, t).(pending := RunOf(ImportLabel(call.index), Ret, call.results))) ==
            Ok(InFrame(s, FindResults(f, call, |s.stack|, |s.crossings|), t))
  {
    hide ParseImportLabel;
    InFrameShape(s, f, t);
    InFrameShape(s, f.(dangling := None), t);
    ImportLabelRoundTrip(call.index);
    if f.dangling.Some? { ImportLabelRoundTrip(f.crossings[f.dangling.value].index); }
    hide ImportLabel;
    Closes(s, f, t, ImportLabel(call.index));
    hide CloseDanglingImports;
    hide InFrame;
    var c := OldCrossing(call, |s.stack|, |s.crossings| + |f.crossings|).(args := []);
    FoundOne(s, f, c, t);
    hide ApplyRun;
    ImportRuns(InFrame(s, f.(dangling := None), t), call.index, call.results);
    assert InFrame(s, f, t).(pending := RunOf(ImportLabel(call.index), Ret, call.results)).(pending := None) == InFrame(s, f, t);
  }

  lemma {:induction false} ResultsFound(s: Asm, f: Found, call: Call, t: Tables)
    requires FrameOpen(s) && FoundOk(f) && call.ImportCall?
    ensures Shape(InFrame(s, f, t))
    ensures CloseRun(InFrame(s, f, t).(pending := RunOf(ImportLabel(call.index), Ret, call.results))) ==
            Ok(InFrame(s, FindResults(f, call, |s.stack|, |s.crossings|), t))
  {
    hide ApplyRun;
    InFrameShape(s, f, t);
    if call.results != [] {
      if f.dangling.Some? && f.crossings[f.dangling.value].index == call.index {
        ResultsContinue(s, f, call, t);
      } else {
        ResultsAppended(s, f, call, t);
      }
    }
  }

  /** A value run and the marker that completes it. */
  lemma {:induction false} RunThenMarker(u: Asm, tag: string, role: Role, values: seq<RawValue>, t: Tables, w: Asm)
    requires Idle(u, t) && |values| <= MAX_INT && tag != "" && w.stack != []
    requires var out := Values(tag, role, values, t);
             CloseRun(u.(varNames := out.tables.varNames, pending := RunOf(tag, role, values))) == Ok(w)
    ensures Values(tag, role, values, t).tables.functions == t.functions
    ensures Runs(u, Values(tag, role, values, t).records + [Event(ExportEdge)], w)
  {
    hide Runs;
    hide CloseRun;
    hide Values;
    var out := Values(tag, role, values, t);
    var u1 := u.(varNames := out.tables.varNames, pending := RunOf(tag, role, values));
    ValuesRun(u, tag, role, values, t);
    One(u1, Event(ExportEdge), w);
    Chain(u, out.records, u1, [Event(ExportEdge)], w);
  }

  lemma {:induction false} ArgumentHalf(s: Asm, f: Found, call: Call, t: Tables)
    requires FrameOpen(s) && FoundOk(f) && call.ImportCall? && |call.args| <= MAX_INT
    ensures var out := Values(ImportLabel(call.index), Arg, call.args, t);
            Runs(InFrame(s, f, t), out.records + [Event(ExportEdge)],
                 InFrame(s, FindArguments(f, call, |s.stack|, |s.crossings|), out.tables))
  {
    hide Runs;
    hide CloseRun;
    hide Values;
    hide FindArguments;
    var tag, g := ImportLabel(call.index), FindArguments(f, call, |s.stack|, |s.crossings|);
    var u, out := InFrame(s, f, t), Values(tag, Arg, call.args, t);
    InFrameShape(s, f, t);
    InFrameShape(s, g, out.tables);
    ImportLabelRoundTrip(call.index);
    hide ImportLabel;
    ValuesRun(u, tag, Arg, call.args, t);
    assert InFrame(s, f, out.tables) == u.(varNames := out.tables.varNames);
    ArgumentsFound(s, f, call, out.tables);
    RunThenMarker(u, tag, Arg, call.args, t, InFrame(s, g, out.tables));
  }

  lemma {:induction false} ResultHalf(s: Asm, f: Found, call: Call, t: Tables)
    requires FrameOpen(s) && FoundOk(f) && call.ImportCall? && |call.results| <= MAX_INT
    ensures var out := Values(ImportLabel(call.index), Ret, call.results, t);
            Runs(InFrame(s, f, t), out.records + [Event(ExportEdge)],
                 InFrame(s, FindResults(f, call, |s.stack|, |s.crossings|), out.tables))
  {
    hide Runs;
    hide CloseRun;
    hide Values;
    hide FindResults;
    var tag, g := ImportLabel(call.index), FindResults(f, call, |s.stack|, |s.crossings|);
    var u, out := InFrame(s, f, t), Values(tag, Ret, call.results, t);
    InFrameShape(s, f, t);
    InFrameShape(s, g, out.tables);
    ImportLabelRoundTrip(call.index);
    hide ImportLabel;
    ValuesRun(u, tag, Ret, call.results, t);
    assert InFrame(s, f, out.tables) == u.(varNames := out.tables.varNames);
    ResultsFound(s, f, call, out.tables);
    RunThenMarker(u, tag, Ret, call.results, t, InFrame(s, g, out.tables));
  }

  /** `s` after the exported calls `f` have come and gone, each in its own group if nothing is open. */
  function AfterCalls(s: Asm, f: Forest, t: Tables): Asm
    requires Exports(f)
    decreases f
  {
    if f.Nil? then s
    else AfterCalls(Grown(s, FindExport(f.head, |s.stack|, |s.crossings|), RenderOld(f.head, t).tables, false), f.tail,
                    RenderOld(f.head, t).tables)
  }

  lemma {:induction false} GrownIdle(s: Asm, t: Tables, cs: seq<Crossing>, t': Tables)
    requires Idle(s, t) && cs != []
    ensures var v := Grown(s, cs, t', false);
            Idle(v, t') && v.stack == s.stack && v.crossings == s.crossings + cs && v.sawImportMarker == s.sawImportMarker
  {}

  /** Inside an open call they all end up behind what was there. */
  lemma {:induction false} AfterInside(s: Asm, f: Forest, t: Tables)
    requires Exports(f) && Idle(s, t) && s.stack != []
    ensures AfterCalls(s, f, t) == Grown(s, FindCalls(f, |s.stack|, |s.crossings|), RenderOldForest(f, t).tables, false)
    decreases f
  {
    hide FindExport;
    hide RenderOld;
    hide Grown;
    if f.Nil? {
      GrownNone(s, t);
    } else {
      var first, t' := FindExport(f.head, |s.stack|, |s.crossings|), RenderOld(f.head, t).tables;
      var u := Grown(s, first, t', false);
      GrownIdle(s, t, first, t');
      AfterInside(u, f.tail, t');
      GrownTwice(s, first, t', false, FindCalls(f.tail, |s.stack|, |s.crossings| + |first|), RenderOldForest(f.tail, t').tables, false);
    }
  }

  lemma {:induction false} AfterOutside(s: Asm, f: Forest, t: Tables)
    requires Exports(f) && Idle(s, t)
    ensures var u := AfterCalls(s, f, t);
            && Idle(u, RenderOldForest(f, t).tables) && u.stack == s.stack && u.sawImportMarker == s.sawImportMarker
            && u.crossings == s.crossings + FindCalls(f, |s.stack|, |s.crossings|)
    decreases f
  {
    hide FindExport;
    hide RenderOld;
    hide Grown;
    if f.Nil? {
      assert s.crossings + [] == s.crossings;
    } else {
      var first, t' := FindExport(f.head, |s.stack|, |s.crossings|), RenderOld(f.head, t).tables;
      var u := Grown(s, first, t', false);
      GrownIdle(s, t, first, t');
      AfterOutside(u, f.tail, t');
      var rest := FindCalls(f.tail, |s.stack|, |s.crossings| + |first|);
      assert s.crossings + first + rest == s.crossings + (first + rest);
    }
  }

  /** Exported calls found inside a frame. */
  lemma {:induction false} GrownInFrame(s: Asm, f: Found, t: Tables, cs: seq<Crossing>, t': Tables)
    requires FrameOpen(s) && FoundOk(f)
    ensures Grown(InFrame(s, f, t), cs, t', false) == InFrame(s, f.(crossings := f.crossings + cs), t')
  {
    assert s.crossings + f.crossings + cs == s.crossings + (f.crossings + cs);
  }

  lemma {:induction false} InsideFound(s: Asm, f: Found, call: Call, t: Tables)
    requires FrameOpen(s) && FoundOk(f) && Exports(call.body) && RenderableForest(call.body) && PlainNames(call.body)
    ensures Runs(InFrame(s, f, t), RenderOldForest(call.body, t).records,
                 InFrame(s, FindInside(f, call, |s.stack|, |s.crossings|), RenderOldForest(call.body, t).tables))
    decreases call, 0
  {
    hide Runs;
    hide RenderOldForest;
    hide AfterCalls;
    var u, out := InFrame(s, f, t), RenderOldForest(call.body, t);
    InFrameShape(s, f, t);
    CallsFound(u, call.body, t);
    AfterInside(u, call.body, t);
    GrownInFrame(s, f, t, FindCalls(call.body, |u.stack|, |u.crossings|), out.tables);
  }

  lemma {:induction false} ImportFound(s: Asm, f: Found, call: Call, t: Tables)
    requires FrameOpen(s) && FoundOk(f) && call.ImportCall? && Exports(call.body) && Renderable(call) && PlainNames(call.body)
    ensures Runs(InFrame(s, f, t), RenderOld(call, t).records,
                 InFrame(s, FindImport(f, call, |s.stack|, |s.crossings|), RenderOld(call, t).tables))
    decreases call, 1
  {
    hide Runs;
    hide InFrame;
    hide Values;
    hide RenderOldForest;
    hide FindArguments;
    hide FindInside;
    hide FindResults;
    hide Delimiters;
    var tag := ImportLabel(call.index);
    var before := Values(tag, Arg, call.args, t);
    var inside := RenderOldForest(call.body, before.tables);
    var after := Values(tag, Ret, call.results, inside.tables);
    hide ImportLabel;
    var g := FindArguments(f, call, |s.stack|, |s.crossings|);
    var h := FindInside(g, call, |s.stack|, |s.crossings|);
    var u, v, w := InFrame(s, f, t), InFrame(s, g, before.tables), InFrame(s, h, inside.tables);
    InFrameShape(s, f, t);
    DelimitersRun(u, t, call.lead);
    ArgumentHalf(s, f, call, t);
    Chain(u, Delimiters(call.lead), u, before.records + [Event(ExportEdge)], v);
    InsideFound(s, g, call, before.tables);
    ResultHalf(s, h, call, inside.tables);
    Chain3(u, Delimiters(call.lead) + (before.records + [Event(ExportEdge)]), v, inside.records, w,
           after.records + [Event(ExportEdge)], InFrame(s, FindImport(f, call, |s.stack|, |s.crossings|), after.tables));
  }

  lemma {:induction false} ImportsFound(s: Asm, f: Found, calls: Forest, t: Tables)
    requires FrameOpen(s) && FoundOk(f) && Imports(calls) && RenderableForest(calls) && PlainNames(calls)
    ensures Runs(InFrame(s, f, t), RenderOldForest(calls, t).records,
                 InFrame(s, FindImports(f, calls, |s.stack|, |s.crossings|), RenderOldForest(calls, t).tables))
    decreases calls
  {
    hide Runs;
    hide InFrame;
    hide FindImport;
    hide RenderOld;
    InFrameShape(s, f, t);
    if calls.Nil? {
      Still(InFrame(s, f, t));
    } else {
      var a, g := RenderOld(calls.head, t), FindImport(f, calls.head, |s.stack|, |s.crossings|);
      ImportFound(s, f, calls.head, t);
      ImportsFound(s, g, calls.tail, a.tables);
      var b := RenderOldForest(calls.tail, a.tables);
      Chain(InFrame(s, f, t), a.records, InFrame(s, g, a.tables), b.records,
            InFrame(s, FindImports(f, calls, |s.stack|, |s.crossings|), b.tables));
    }
  }

  // ---- the exported call around them -------------------------------------

  /** `Return`, and the result run before it, close an import that is still open. */
  lemma {:induction false} ReturnIgnoresDangling(u: Asm, g: Found, t: Tables, results: seq<RawValue>)
    requires FrameOpen(u) && FoundOk(g)
    ensures Shape(InFrame(u, g, t)) && Shape(InFrame(u, g.(dangling := None), t))
    ensures var pending := RunOf(Top(u).tag, Ret, results);
            Push(InFrame(u, g, t).(pending := pending), Return) ==
            Push(InFrame(u, g.(dangling := None), t).(pending := pending), Return)
  {
    hide ApplyRun;
    hide NoteGroupBoundary;
    hide ParseImportLabel;
    var name, settled := Top(u).tag, g.(dangling := None);
    if g.dangling.Some? { ImportLabelRoundTrip(g.crossings[g.dangling.value].index); }
    hide ImportLabel;
    InFrameShape(u, g, t);
    InFrameShape(u, settled, t);
    Closes(u, g, t, name);
    Closes(u, settled, t, name);
    Closes(u, g, t, "");
    Closes(u, settled, t, "");
    hide CloseDanglingImports;
    if results != [] {
      assert InFrame(u, g, t).(pending := RunOf(name, Ret, results)).(pending := None) == InFrame(u, g, t);
      assert InFrame(u, settled, t).(pending := RunOf(name, Ret, results)).(pending := None) == InFrame(u, settled, t);
    }
  }

  lemma {:induction false} OpenedFrame(s: Asm, c: Crossing, name: string)
    requires Shape(s) && s.pending.None? && c.kind.Export? && ParseImportLabel(name).None?
    ensures var u := Opened(s, c, name); FrameOpen(u) && Top(u).tag == name && TopCrossing(u) == c
  {}

  lemma {:induction false} InFrameTables(u: Asm, g: Found, t: Tables, t': Tables)
    requires FoundOk(g) && t'.functions == t.functions
    ensures InFrame(u, g, t).(varNames := t'.varNames) == InFrame(u, g, t')
  {}

  lemma {:induction false} SettledIsGrown(u: Asm, g: Found, t: Tables)
    requires FoundOk(g) && u.stack != []
    ensures InFrame(u, g.(dangling := None), t) == Grown(u, g.crossings, t, false)
  {}

  lemma {:induction false} FrameCloses(s: Asm, call: Call, g: Found, t: Tables)
    requires Shape(s) && s.pending.None? && (s.stack == [] ==> s.groupStart == |s.crossings|)
    requires call.ExportCall? && Nameable(call) && ParseImportLabel(call.name).None? && FoundOk(g)
    ensures var c1 := OldCrossing(call, |s.stack|, |s.crossings|);
            var u := Opened(s, c1.(results := [], hasResults := false), call.name);
            var after := Values(call.name, Ret, call.results, t);
            Runs(InFrame(u, g, t), after.records + [Return] + [Event(ExportEdge)], Grown(s, [c1] + g.crossings, after.tables, false))
  {
    hide Runs;
    hide Push;
    hide Values;
    hide InFrame;
    hide Grown;
    hide Opened;
    hide ParseImportLabel;
    hide NoteGroupBoundary;
    var n, c1 := |s.crossings|, OldCrossing(call, |s.stack|, |s.crossings|);
    var c0 := c1.(results := [], hasResults := false);
    var u := Opened(s, c0, call.name);
    OpenedFrame(s, c0, call.name);
    var after := Values(call.name, Ret, call.results, t);
    var settled := g.(dangling := None);
    var v := Grown(s, [c1] + g.crossings, after.tables, false);
    var w := InFrame(u, g, after.tables).(pending := RunOf(call.name, Ret, call.results));
    InFrameShape(u, g, t);
    ValuesRun(InFrame(u, g, t), call.name, Ret, call.results, t);
    InFrameTables(u, g, t, after.tables);
    ReturnIgnoresDangling(u, g, after.tables, call.results);
    Closed(s, c0, c1, call.name, g.crossings, after.tables, false);
    SettledIsGrown(u, g, after.tables);
    ExportReturn(InFrame(u, settled, after.tables), n, call.name, call.results);
    GrownSettled(s, [c1] + g.crossings, after.tables, false);
    One(w, Return, v);
    QuietMarker(v);
    Chain3(InFrame(u, g, t), after.records, w, [Return], v, [Event(ExportEdge)], v);
  }

  lemma {:induction false} ExportFound(s: Asm, call: Call, t: Tables)
    requires Idle(s, t) && call.ExportCall? && Imports(call.body) && Renderable(call)
    requires ParseImportLabel(call.name).None? && PlainNames(call.body)
    ensures Runs(s, RenderOld(call, t).records,
                 Grown(s, FindExport(call, |s.stack|, |s.crossings|), RenderOld(call, t).tables, false))
    decreases call
  {
    hide Runs;
    hide Values;
    hide RenderOldForest;
    hide Grown;
    hide FindImports;
    hide ParseImportLabel;
    hide Delimiters;
    hide Naming;
    hide IndexOf;
    hide Intern;
    var before := Values(call.name, Arg, call.args, t.(functions := Intern(t.functions, call.name)));
    var inside := RenderOldForest(call.body, before.tables);
    var after := Values(call.name, Ret, call.results, inside.tables);
    var opening := Delimiters(call.lead + 1) + Naming(call.name, t) + [Record.Call(IndexOf(t.functions, call.name))]
                   + before.records + [Event(ExportEdge)];
    var c1 := OldCrossing(call, |s.stack|, |s.crossings|);
    var c0 := c1.(results := [], hasResults := false);
    var s0 := s.(functions := before.tables.functions, varNames := before.tables.varNames);
    var u := Opened(s0, c0, call.name);
    ExportOpens(s, call, t);
    assert TopCrossing(u) == c0;
    InFrameNothing(u, before.tables);
    ImportsFound(u, NOTHING, call.body, before.tables);
    var g := FindImports(NOTHING, call.body, |s.stack| + 1, |s.crossings| + 1);
    FrameCloses(s0, call, g, inside.tables);
    GrownTables(s, before.tables.functions, before.tables.varNames, [c1] + g.crossings, after.tables, false);
    Chain3(s, opening, u, inside.records, InFrame(u, g, inside.tables), after.records + [Return] + [Event(ExportEdge)],
           Grown(s, [c1] + g.crossings, after.tables, false));
  }

  lemma {:induction false} InFrameNothing(u: Asm, t: Tables)
    requires FrameOpen(u) && u.functions == t.functions && u.varNames == t.varNames
    ensures InFrame(u, NOTHING, t) == u
  {
    assert u.crossings + [] == u.crossings;
  }

  /** Exported calls, outside of any call or inside one. */
  lemma {:induction false} CallsFound(s: Asm, f: Forest, t: Tables)
    requires Idle(s, t) && Exports(f) && RenderableForest(f) && PlainNames(f)
    ensures Runs(s, RenderOldForest(f, t).records, AfterCalls(s, f, t))
    decreases f
  {
    hide Runs;
    hide FindExport;
    hide RenderOld;
    hide Grown;
    if f.Nil? {
      Still(s);
    } else {
      var a := RenderOld(f.head, t);
      var first := FindExport(f.head, |s.stack|, |s.crossings|);
      ExportFound(s, f.head, t);
      var u := Grown(s, first, a.tables, false);
      GrownIdle(s, t, first, a.tables);
      CallsFound(u, f.tail, a.tables);
      Chain(s, a.records, u, RenderOldForest(f.tail, a.tables).records, AfterCalls(s, f, t));
    }
  }

  // ---- the theorem ---------------------------------------------------------

  function LegacyRecording(f: Forest): seq<Record> { RenderOldForest(f, Tables([], [])).records }

  lemma {:induction false} FinishIdle(s: Asm)
    requires Shape(s) && s.pending.None? && s.stack == [] && s.groupStart == |s.crossings|
    ensures Finish(s) == Ok(s)
  {}

  /** Every recording in the older format is accepted, without a format witness, and this is what is
      recovered from it. */
  lemma {:induction false} LegacyIsFound(f: Forest)
    requires Exports(f) && RenderableForest(f) && PlainNames(f)
    ensures var r := Reconstruct(LegacyRecording(f));
            r.Ok? && !r.value.sawImportMarker && r.value.crossings == FindCalls(f, 0, 0)
  {
    hide FindCalls;
    hide RenderOldForest;
    hide AfterCalls;
    var t := Tables([], []);
    CallsFound(EMPTY, f, t);
    AfterOutside(EMPTY, f, t);
    assert [] + FindCalls(f, 0, 0) == FindCalls(f, 0, 0);
    var s := AfterCalls(EMPTY, f, t);
    assert PushAll(EMPTY, LegacyRecording(f)) == Ok(s);
    FinishIdle(s);
  }
}
