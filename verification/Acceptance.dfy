/** What an accepted recording is like (internal/boundarylog/assembler.go:103-447), whoever wrote it: its
    records refer to names declared before them, its value runs are gapless, its markers and calls are
    properly nested, values of an exported call stand inside that call, and the exported calls recovered
    are the `Call` records in order. */
module Acceptance {
  import opened Wrappers
  import opened Labels
  import opened Crossings
  import opened AssemblerSpec

  // ---- a recording, record by record ---------------------------------------------------------------

  function Front(evs: seq<Record>): seq<Record>
    requires evs != []
  {
    evs[..|evs| - 1]
  }

  function Last(evs: seq<Record>): Record
    requires evs != []
  {
    evs[|evs| - 1]
  }

  function FunctionNames(evs: seq<Record>): seq<string> {
    if evs == [] then []
    else FunctionNames(Front(evs)) + if Last(evs).Function? then [Last(evs).name] else []
  }

  function VariableNames(evs: seq<Record>): seq<string> {
    if evs == [] then []
    else VariableNames(Front(evs)) + if Last(evs).VariableName? then [Last(evs).name] else []
  }

  /** The functions called, in order, as far as they are declared. */
  function CalledNames(evs: seq<Record>): seq<string> {
    if evs == [] then []
    else
      var names, last := FunctionNames(Front(evs)), Last(evs);
      CalledNames(Front(evs)) + if last.Call? && last.functionId < |names| then [names[last.functionId]] else []
  }

  /** What the last record binds, if it is a value with a binding name. */
  function LastBinding(evs: seq<Record>): Option<Binding>
    requires evs != []
  {
    var names, last := VariableNames(Front(evs)), Last(evs);
    if last.Value? && last.variableId < |names| then ParseBindingName(names[last.variableId]) else None
  }

  /** The binding that a next value would go on from: names and unknown records do not interrupt a run. */
  function InFlight(evs: seq<Record>): Option<Binding> {
    if evs == [] then None
    else if Last(evs).VariableName? || Last(evs).Unknown? then InFlight(Front(evs))
    else LastBinding(evs)
  }

  /** The last record stands rightly after the others. */
  predicate LastOk(evs: seq<Record>)
    requires evs != []
  {
    match Last(evs)
    case Call(id) => id < |FunctionNames(Front(evs))|
    case Value(id, value) =>
      && id < |VariableNames(Front(evs))|
      && match LastBinding(evs) {
        case None => true
        case Some(b) => value.Some? && (b.slot == 0 || InFlight(Front(evs)) == Some(b.(slot := b.slot - 1)))
      }
    case Event(HostRecord(accepted)) => accepted
    case _ => true
  }

  datatype Bracket = CallOpen(name: string) | MarkerOpen(index: uint32)

  predicate Innermost(open: seq<Bracket>, b: Bracket) { open != [] && open[|open| - 1] == b }

  /** The calls and markers open at the end; `None` if one is closed that is not the innermost. */
  function Brackets(evs: seq<Record>): Option<seq<Bracket>> {
    if evs == [] then Some([])
    else
      match Brackets(Front(evs))
      case None => None
      case Some(open) =>
        match Last(evs)
        case Call(id) =>
          var names := FunctionNames(Front(evs));
          if id < |names| then Some(open + [CallOpen(names[id])]) else None
        case Return => if open != [] && open[|open| - 1].CallOpen? then Some(open[..|open| - 1]) else None
        case Event(ImportEdge(i, true)) => Some(open + [MarkerOpen(i)])
        case Event(ImportEdge(i, false)) => if Innermost(open, MarkerOpen(i)) then Some(open[..|open| - 1]) else None
        case _ => Some(open)
  }

  /** A value of an exported call stands directly inside that call. */
  predicate LastOwned(evs: seq<Record>)
    requires evs != []
  {
    var b := LastBinding(evs);
    b.Some? && ParseImportLabel(b.value.tag).None? ==>
      Brackets(Front(evs)).Some? && Innermost(Brackets(Front(evs)).value, CallOpen(b.value.tag))
  }

  /** None of the names could be taken for an import label. */
  predicate Plain(names: seq<string>) { forall n :: n in names ==> ParseImportLabel(n).None? }

  // ---- the same, of the assembler's state --------------------------------------------------------

  function ExportNames(cs: seq<Crossing>): seq<string> {
    if cs == [] then []
    else ExportNames(cs[..|cs| - 1]) + if cs[|cs| - 1].kind.Export? then [cs[|cs| - 1].name] else []
  }

  predicate TagOk(c: Crossing, tag: string) {
    if c.kind.Export? then tag == c.name && !c.marked else ParseImportLabel(tag).Some?
  }

  ghost predicate Kept(s: Asm) {
    && Shape(s)
    && (forall k :: 0 <= k < |s.stack| ==> TagOk(s.crossings[s.stack[k].idx], s.stack[k].tag))
    && (forall j, k :: 0 <= j < k < |s.stack| ==> s.stack[j].idx < s.stack[k].idx)
  }

  function Piece(c: Crossing): seq<Bracket> {
    if c.kind.Export? then [CallOpen(c.name)] else if c.marked then [MarkerOpen(c.index)] else []
  }

  function Skeleton(stack: seq<Open>, cs: seq<Crossing>): seq<Bracket>
    requires forall k :: 0 <= k < |stack| ==> stack[k].idx < |cs|
  {
    if stack == [] then []
    else Skeleton(stack[..|stack| - 1], cs) + Piece(cs[stack[|stack| - 1].idx])
  }

  function OpenBrackets(s: Asm): seq<Bracket>
    requires Shape(s)
  {
    Skeleton(s.stack, s.crossings)
  }

  lemma {:induction false} SkeletonKept(stack: seq<Open>, cs: seq<Crossing>, ds: seq<Crossing>)
    requires forall k :: 0 <= k < |stack| ==> stack[k].idx < |cs| && stack[k].idx < |ds|
    requires forall k :: 0 <= k < |stack| ==> Piece(ds[stack[k].idx]) == Piece(cs[stack[k].idx])
    ensures Skeleton(stack, ds) == Skeleton(stack, cs)
    decreases |stack|
  {
    if stack != [] { SkeletonKept(stack[..|stack| - 1], cs, ds); }
  }

  lemma {:induction false} NamesKept(cs: seq<Crossing>, ds: seq<Crossing>)
    requires |cs| == |ds| && forall i :: 0 <= i < |cs| ==> cs[i].kind == ds[i].kind && cs[i].name == ds[i].name
    ensures ExportNames(ds) == ExportNames(cs)
    decreases |cs|
  {
    if cs != [] { NamesKept(cs[..|cs| - 1], ds[..|ds| - 1]); }
  }

  lemma {:induction false} NamesOfExports(cs: seq<Crossing>, i: nat)
    requires i < |cs| && cs[i].kind.Export?
    ensures cs[i].name in ExportNames(cs)
    decreases |cs|
  {
    if i < |cs| - 1 { NamesOfExports(cs[..|cs| - 1], i); }
  }

  /** Popping takes the top's piece away. */
  lemma {:induction false} PopMove(s: Asm)
    requires Kept(s) && s.stack != []
    ensures Kept(Pop(s)) && OpenBrackets(s) == OpenBrackets(Pop(s)) + Piece(TopCrossing(s))
  {}

  /** Filling in values changes neither names nor brackets. */
  lemma {:induction false} UpdateMove(s: Asm, c: Crossing)
    requires Kept(s) && s.stack != []
    requires c.kind == TopCrossing(s).kind && c.name == TopCrossing(s).name && c.index == TopCrossing(s).index
    requires c.marked == TopCrossing(s).marked
    ensures var t := UpdateTop(s, c);
            && Kept(t) && OpenBrackets(t) == OpenBrackets(s)
            && ExportNames(t.crossings) == ExportNames(s.crossings)
  {
    var t := UpdateTop(s, c);
    SkeletonKept(s.stack, s.crossings, t.crossings);
    NamesKept(s.crossings, t.crossings);
  }

  /** Marking the import on top opens a marker. */
  lemma {:induction false} MarkMove(s: Asm)
    requires Kept(s) && s.stack != [] && TopCrossing(s).kind.Import? && !TopCrossing(s).marked
    ensures var t := UpdateTop(s, TopCrossing(s).(marked := true));
            && Kept(t) && OpenBrackets(t) == OpenBrackets(s) + [MarkerOpen(TopCrossing(s).index)]
            && ExportNames(t.crossings) == ExportNames(s.crossings)
  {
    hide ExportNames;
    hide Skeleton;
    hide TagOk;
    SkeletonMarked(s.stack, s.crossings);
    NamesKept(s.crossings, UpdateTop(s, TopCrossing(s).(marked := true)).crossings);
    MarkKept(s);
  }

  lemma {:induction false} SkeletonMarked(stack: seq<Open>, cs: seq<Crossing>)
    requires stack != [] && forall k :: 0 <= k < |stack| ==> stack[k].idx < |cs|
    requires forall k :: 0 <= k < |stack| - 1 ==> stack[k].idx != stack[|stack| - 1].idx
    requires cs[stack[|stack| - 1].idx].kind.Import? && !cs[stack[|stack| - 1].idx].marked
    ensures var at := stack[|stack| - 1].idx;
            Skeleton(stack, cs[at := cs[at].(marked := true)]) == Skeleton(stack, cs) + [MarkerOpen(cs[at].index)]
  {
    var at, below := stack[|stack| - 1].idx, stack[..|stack| - 1];
    var ds := cs[at := cs[at].(marked := true)];
    SkeletonKept(below, cs, ds);
    assert Skeleton(stack, ds) == Skeleton(below, ds) + Piece(ds[at]);
    assert Skeleton(stack, cs) == Skeleton(below, cs) + Piece(cs[at]);
  }

  lemma {:induction false} MarkKept(s: Asm)
    requires Kept(s) && s.stack != [] && TopCrossing(s).kind.Import? && !TopCrossing(s).marked
    ensures Kept(UpdateTop(s, TopCrossing(s).(marked := true)))
  {}

  lemma {:induction false} AppendMove(s: Asm, c: Crossing)
    requires Kept(s)
    ensures var t := Append(s, c);
            && Kept(t) && OpenBrackets(t) == OpenBrackets(s)
            && ExportNames(t.crossings) == ExportNames(s.crossings) + if c.kind.Export? then [c.name] else []
  {
    var t := Append(s, c);
    assert t.crossings[..|t.crossings| - 1] == s.crossings;
    SkeletonKept(s.stack, s.crossings, t.crossings);
  }

  lemma {:induction false} OpenMove(s: Asm, c: Crossing, tag: string)
    requires Kept(s) && TagOk(c, tag)
    ensures var t := OpenCrossing(s, c, tag);
            && Kept(t) && OpenBrackets(t) == OpenBrackets(s) + Piece(c)
            && ExportNames(t.crossings) == ExportNames(s.crossings) + if c.kind.Export? then [c.name] else []
  {
    AppendMove(s, c);
    var t := OpenCrossing(s, c, tag);
    assert t.crossings == Append(s, c).crossings && t.stack[..|s.stack|] == s.stack;
  }

  // ---- one record ------------------------------------------------------------------------------------

  /** What closing a value run, or cleaning up after one, leaves alone. */
  ghost predicate Unmoved(s: Asm, t: Asm) {
    && Kept(s) && Kept(t)
    && t.functions == s.functions && t.varNames == s.varNames
    && ExportNames(t.crossings) == ExportNames(s.crossings)
    && (Plain(ExportNames(s.crossings)) ==> OpenBrackets(t) == OpenBrackets(s))
  }

  lemma {:induction false} DanglingUnmoved(s: Asm, keep: string)
    requires Kept(s)
    ensures Unmoved(s, CloseDanglingImports(s, keep, false))
    ensures OpenBrackets(CloseDanglingImports(s, keep, false)) == OpenBrackets(s)
    decreases |s.stack|
  {
    hide Kept;
    KeptShape(s);
    OneDangling(s, keep, false);
    if Dangling(s, keep, false) {
      PopMove(s);
      DanglingUnmoved(Pop(s), keep);
    }
  }

  lemma {:induction false} KeptShape(s: Asm)
    requires Kept(s)
    ensures Shape(s)
  {}

  /** The innermost call is the one the values belong to. */
  predicate Owned(s: Asm, tag: string)
    requires Shape(s)
  {
    ParseImportLabel(tag).None? ==> Innermost(OpenBrackets(s), CallOpen(tag))
  }

  lemma {:induction false} ApplyRunUnmoved(s: Asm, run: Run)
    requires Kept(s)
    ensures var r := ApplyRun(s, run); r.Ok? ==> Unmoved(s, r.value) && Owned(s, run.tag)
  {
    hide Skeleton;
    hide ExportNames;
    var imported, r := ParseImportLabel(run.tag), ApplyRun(s, run);
    if r.Ok? {
      if run.role.Arg? && imported.Some? {
        OpenMove(s, Fresh(s, Import).(index := imported.value, args := run.values), run.tag);
      } else if s.stack != [] && Top(s).tag == run.tag {
        assert TagOk(TopCrossing(s), Top(s).tag);
        PopMove(s);
        if run.role.Arg? {
          UpdateMove(s, TopCrossing(s).(args := run.values));
        } else {
          FilledUnmoved(s, run);
        }
      } else {
        AppendMove(s, Fresh(s, Import).(index := imported.value, results := run.values, hasResults := true));
      }
    }
  }

  lemma {:induction false} FilledUnmoved(s: Asm, run: Run)
    requires Kept(s) && s.stack != [] && Top(s).tag == run.tag && run.role.Ret?
    ensures ApplyRun(s, run).Ok? && Unmoved(s, ApplyRun(s, run).value)
  {
    hide Skeleton;
    hide ExportNames;
    var c := TopCrossing(s).(results := run.values, hasResults := true);
    var t := UpdateTop(s, c);
    UpdateMove(s, c);
    PopMove(t);
    assert TagOk(TopCrossing(s), Top(s).tag);
    if TopCrossing(s).kind.Export? { NamesOfExports(s.crossings, Top(s).idx); }
  }

  lemma {:induction false} CloseRunUnmoved(s: Asm)
    requires Kept(s)
    ensures var r := CloseRun(s);
            r.Ok? ==> Unmoved(s, r.value) && (s.pending.Some? ==> Owned(s, s.pending.value.tag))
  {
    hide Skeleton;
    hide ExportNames;
    hide ApplyRun;
    hide CloseDanglingImports;
    if s.pending.Some? {
      var run := s.pending.value;
      var t := s.(pending := None);
      var keep := if run.role.Ret? then run.tag else "";
      DanglingUnmoved(t, keep);
      ApplyRunUnmoved(CloseDanglingImports(t, keep, false), run);
    }
  }

  /** The run in flight is the one the records say. */
  predicate RunAgrees(pending: Option<Run>, b: Option<Binding>) {
    match b
    case None => pending.None?
    case Some(b) =>
      && pending.Some? && pending.value.tag == b.tag && pending.value.role == b.role
      && |pending.value.values| == b.slot + 1
  }

  ghost predicate Agrees(evs: seq<Record>, s: Asm) {
    && Kept(s) && s.functions == FunctionNames(evs) && s.varNames == VariableNames(evs)
    && ExportNames(s.crossings) == CalledNames(evs)
    && (Plain(CalledNames(evs)) ==> Brackets(evs) == Some(OpenBrackets(s)))
    && RunAgrees(s.pending, InFlight(evs))
  }

  lemma {:induction false} NotedAgrees(evs: seq<Record>, s: Asm)
    requires Agrees(evs, s) && Shape(s)
    ensures Agrees(evs, NoteGroupBoundary(s))
  {
    hide Skeleton;
    hide ExportNames;
    hide Brackets;
  }

  /** Records that only end a run. */
  lemma {:induction false} ClosedAgrees(evs: seq<Record>, s: Asm)
    requires evs != [] && Agrees(Front(evs), s) && Shape(s) && CloseRun(s).Ok?
    requires Last(evs).Delimiter? || Last(evs).Function? || Last(evs).Event? || (Last(evs).Value? && LastBinding(evs).None?)
    requires Last(evs).Event? ==> !Last(evs).marker.ImportEdge?
    ensures var t := CloseRun(s).value;
            Agrees(evs, if Last(evs).Function? then t.(functions := t.functions + [Last(evs).name]) else t)
  {
    hide CloseRun;
    hide Skeleton;
    hide ExportNames;
    CloseRunUnmoved(s);
  }

  /** A value of the run in flight, or the first of a new one. */
  lemma {:induction false} AppendAgrees(evs: seq<Record>, s: Asm, t: Asm, b: Binding, v: RawValue)
    requires evs != [] && Agrees(Front(evs), s) && Last(evs).Value? && LastBinding(evs) == Some(b)
    requires Unmoved(s, t) && Shape(t) && AppendValue(t, b, v).Ok?
    requires t.pending.Some? ==> t.pending.value.tag == b.tag && t.pending.value.role == b.role
    ensures Agrees(evs, AppendValue(t, b, v).value)
  {
    hide Skeleton;
    hide ExportNames;
  }

  lemma {:induction false} BindingAgrees(evs: seq<Record>, s: Asm, b: Binding)
    requires evs != [] && Agrees(Front(evs), s) && Shape(s) && Transition(s, Last(evs)).Ok?
    requires Last(evs).Value? && LastBinding(evs) == Some(b)
    ensures Agrees(evs, Transition(s, Last(evs)).value) && LastOk(evs)
  {
    hide Agrees;
    hide CloseRun;
    hide ParseBindingName;
    AgreesRun(Front(evs), s);
    BindingOk(evs, s, b);
    CloseRunUnmoved(s);
    hide Unmoved;
    var starts := s.pending.Some? && StartsRun(s.pending.value, b);
    var t := if starts then CloseRun(s).value else s;
    AppendAgrees(evs, s, t, b, Last(evs).value.value);
  }

  lemma {:induction false} BindingOk(evs: seq<Record>, s: Asm, b: Binding)
    requires evs != [] && Shape(s) && Transition(s, Last(evs)).Ok?
    requires RunAgrees(s.pending, InFlight(Front(evs))) && s.varNames == VariableNames(Front(evs))
    requires Last(evs).Value? && LastBinding(evs) == Some(b)
    ensures LastOk(evs)
  {
    hide CloseRun;
    hide ParseBindingName;
    hide InFlight;
    hide VariableNames;
  }

  lemma {:induction false} AgreesRun(evs: seq<Record>, s: Asm)
    requires Agrees(evs, s)
    ensures RunAgrees(s.pending, InFlight(evs)) && s.varNames == VariableNames(evs)
    ensures Kept(s) && Unmoved(s, s)
  {}

  lemma {:induction false} ValueAgrees(evs: seq<Record>, s: Asm)
    requires evs != [] && Agrees(Front(evs), s) && Shape(s) && Last(evs).Value? && Transition(s, Last(evs)).Ok?
    ensures Agrees(evs, Transition(s, Last(evs)).value) && LastOk(evs)
  {
    AgreesRun(Front(evs), s);
    hide Agrees;
    hide CloseRun;
    if LastBinding(evs).None? { ClosedAgrees(evs, s); } else { BindingAgrees(evs, s, LastBinding(evs).value); }
  }

  lemma {:induction false} CallAgrees(evs: seq<Record>, s: Asm)
    requires evs != [] && Agrees(Front(evs), s) && Shape(s) && Last(evs).Call? && Transition(s, Last(evs)).Ok?
    ensures Agrees(evs, Transition(s, Last(evs)).value) && LastOk(evs)
  {
    hide CloseRun;
    hide Skeleton;
    hide ExportNames;
    CloseRunUnmoved(s);
    var t, name := CloseRun(s).value, s.functions[Last(evs).functionId];
    OpenMove(t, Fresh(t, Export).(name := name), name);
  }

  lemma {:induction false} ReturnAgrees(evs: seq<Record>, s: Asm)
    requires evs != [] && Agrees(Front(evs), s) && Shape(s) && Last(evs).Return? && Transition(s, Last(evs)).Ok?
    ensures Agrees(evs, Transition(s, Last(evs)).value) && LastOk(evs)
  {
    hide CloseRun;
    hide CloseDanglingImports;
    hide Skeleton;
    hide ExportNames;
    CloseRunUnmoved(s);
    var t := CloseRun(s).value;
    DanglingUnmoved(t, "");
    PopMove(CloseDanglingImports(t, "", false));
  }

  lemma {:induction false} EnterAgrees(evs: seq<Record>, s: Asm)
    requires evs != [] && Agrees(Front(evs), s) && Shape(s) && Transition(s, Last(evs)).Ok?
    requires Last(evs).Event? && Last(evs).marker.ImportEdge? && Last(evs).marker.enter
    ensures Agrees(evs, Transition(s, Last(evs)).value) && LastOk(evs)
  {
    hide CloseRun;
    hide Skeleton;
    hide ExportNames;
    hide OpenMarkedImport;
    CloseRunUnmoved(s);
    MarkerOpens(CloseRun(s).value.(sawImportMarker := true), Last(evs).marker.index);
  }

  lemma {:induction false} MarkerOpens(u: Asm, i: uint32)
    requires Kept(u)
    ensures var t := OpenMarkedImport(u, i);
            && Kept(t) && t.functions == u.functions && t.varNames == u.varNames && t.pending == u.pending
            && ExportNames(t.crossings) == ExportNames(u.crossings)
            && OpenBrackets(t) == OpenBrackets(u) + [MarkerOpen(i)]
  {
    hide Skeleton;
    hide ExportNames;
    if u.stack != [] && TopCrossing(u).kind.Import? && TopCrossing(u).index == i && !TopCrossing(u).marked {
      MarkMove(u);
    } else {
      ImportLabelRoundTrip(i);
      OpenMove(u, Fresh(u, Import).(index := i, marked := true), ImportLabel(i));
    }
  }

  lemma {:induction false} LeaveAgrees(evs: seq<Record>, s: Asm)
    requires evs != [] && Agrees(Front(evs), s) && Shape(s) && Transition(s, Last(evs)).Ok?
    requires Last(evs).Event? && Last(evs).marker.ImportEdge? && !Last(evs).marker.enter
    ensures Agrees(evs, Transition(s, Last(evs)).value) && LastOk(evs)
  {
    hide CloseRun;
    hide Skeleton;
    hide ExportNames;
    CloseRunUnmoved(s);
    PopMove(CloseRun(s).value.(sawImportMarker := true));
  }

  /** Records that a run goes on through. */
  lemma {:induction false} NameAgrees(evs: seq<Record>, s: Asm)
    requires evs != [] && Agrees(Front(evs), s) && Shape(s) && (Last(evs).VariableName? || Last(evs).Unknown?)
    ensures Transition(s, Last(evs)).Ok? && Agrees(evs, Transition(s, Last(evs)).value) && LastOk(evs)
  {
    hide Skeleton;
    hide ExportNames;
  }

  lemma {:induction false} MarkerAgrees(evs: seq<Record>, s: Asm)
    requires evs != [] && Agrees(Front(evs), s) && Shape(s) && Transition(s, Last(evs)).Ok? && Last(evs).Event?
    ensures Agrees(evs, Transition(s, Last(evs)).value) && LastOk(evs)
  {
    var marker := Last(evs).marker;
    if marker.ImportEdge? {
      hide Agrees;
      if marker.enter { EnterAgrees(evs, s); } else { LeaveAgrees(evs, s); }
    } else {
      hide CloseRun;
      hide Agrees;
      AgreesKept(Front(evs), s);
      ClosedAgrees(evs, s);
    }
  }

  lemma {:induction false} AgreesKept(evs: seq<Record>, s: Asm)
    requires Agrees(evs, s)
    ensures Shape(s)
  {}

  lemma {:induction false} TransitionAgrees(evs: seq<Record>, s: Asm)
    requires evs != [] && Agrees(Front(evs), s) && Shape(s) && Transition(s, Last(evs)).Ok?
    ensures Agrees(evs, Transition(s, Last(evs)).value) && LastOk(evs)
  {
    hide Agrees;
    hide CloseRun;
    hide PushCall;
    hide PushReturn;
    hide PushValue;
    hide PushEvent;
    hide LastBinding;
    match Last(evs)
    case Value(_, _) => ValueAgrees(evs, s);
    case Call(_) => CallAgrees(evs, s);
    case Return => ReturnAgrees(evs, s);
    case Event(_) => MarkerAgrees(evs, s);
    case Delimiter => ClosedAgrees(evs, s);
    case Function(_) => ClosedAgrees(evs, s);
    case VariableName(_) => NameAgrees(evs, s);
    case Unknown => NameAgrees(evs, s);
  }

  /** One record keeps the agreement, and stands rightly. */
  lemma {:induction false} PushAgrees(evs: seq<Record>, s: Asm)
    requires evs != [] && Agrees(Front(evs), s) && Shape(s) && Push(s, Last(evs)).Ok?
    ensures Agrees(evs, Push(s, Last(evs)).value) && LastOk(evs)
  {
    hide Agrees;
    hide Transition;
    hide LastOk;
    TransitionAgrees(evs, s);
    NotedAgrees(evs, Transition(s, Last(evs)).value);
  }

  lemma {:induction false} RunAgreesThroughout(evs: seq<Record>)
    requires PushAll(EMPTY, evs).Ok?
    ensures Agrees(evs, PushAll(EMPTY, evs).value)
    ensures forall k :: 0 < k <= |evs| ==> LastOk(evs[..k])
    decreases |evs|
  {
    hide Agrees;
    hide Push;
    hide LastOk;
    if evs == [] {
      EmptyAgrees();
    } else {
      hide PushAll;
      LastPush(evs);
      RunAgreesThroughout(Front(evs));
      PushAgrees(evs, PushAll(EMPTY, Front(evs)).value);
      forall k | 0 < k <= |evs| ensures LastOk(evs[..k]) {
        if k < |evs| { assert evs[..k] == Front(evs)[..k]; } else { assert evs[..k] == evs; }
      }
    }
  }

  lemma {:induction false} EmptyAgrees()
    ensures PushAll(EMPTY, []) == Ok(EMPTY) && Agrees([], EMPTY)
  {}

  // ---- the whole recording -----------------------------------------------------------------------------

  /** A run in flight is closed sooner or later, so what closing it demands holds already. */
  lemma {:induction false} RunIsOwned(s: Asm, evs: seq<Record>)
    requires Kept(s) && Shape(s) && PushAll(s, evs).Ok? && Finish(PushAll(s, evs).value).Ok?
    requires s.pending.Some? && Plain(ExportNames(s.crossings))
    ensures Owned(s, s.pending.value.tag)
    decreases |evs|
  {
    hide Skeleton;
    hide ExportNames;
    hide CloseRun;
    hide Owned;
    CloseRunUnmoved(s);
    if evs != [] {
      var t := Push(s, evs[0]).value;
      if CloseRun(s).Err? {
        StillInFlight(s, evs[0]);
        RunIsOwned(t, evs[1..]);
        SameOwner(s, t);
      }
    }
  }

  lemma {:induction false} StillInFlight(s: Asm, ev: Record)
    requires Kept(s) && Shape(s) && s.pending.Some? && CloseRun(s).Err? && Push(s, ev).Ok?
    ensures var t := Push(s, ev).value;
            && t.stack == s.stack && t.crossings == s.crossings
            && t.pending.Some? && t.pending.value.tag == s.pending.value.tag
  {
    hide CloseRun;
  }

  lemma {:induction false} SameOwner(s: Asm, t: Asm)
    requires Kept(s) && Shape(s) && s.pending.Some? && t.pending.Some?
    requires t.stack == s.stack && t.crossings == s.crossings && t.pending.value.tag == s.pending.value.tag
    ensures Kept(t) && Owned(t, t.pending.value.tag) == Owned(s, s.pending.value.tag)
  {}

  predicate MarkersOnly(open: seq<Bracket>) { forall i :: 0 <= i < |open| ==> open[i].MarkerOpen? }

  /** At the end of the input imports may be open, calls may not. */
  lemma {:induction false} OnlyImportsLeft(s: Asm)
    requires Kept(s) && CloseDanglingImports(s, "", true).stack == []
    ensures MarkersOnly(OpenBrackets(s))
    decreases |s.stack|
  {
    hide Kept;
    KeptShape(s);
    OneDangling(s, "", true);
    if s.stack != [] {
      PopMove(s);
      OnlyImportsLeft(Pop(s));
    }
  }

  lemma {:induction false} FinishAgrees(evs: seq<Record>, s: Asm)
    requires Agrees(evs, s) && Shape(s) && Finish(s).Ok?
    ensures ExportNames(Finish(s).value.crossings) == CalledNames(evs)
    ensures Plain(CalledNames(evs)) ==> Brackets(evs).Some? && MarkersOnly(Brackets(evs).value)
  {
    hide CloseRun;
    hide Skeleton;
    hide ExportNames;
    hide CloseDanglingImports;
    CloseRunUnmoved(s);
    var t := CloseRun(s).value;
    if CloseDanglingImports(t, "", true).stack == [] { OnlyImportsLeft(t); }
  }

  lemma {:induction false} CalledBefore(evs: seq<Record>, k: nat)
    requires k <= |evs|
    ensures CalledNames(evs[..k]) <= CalledNames(evs)
    decreases |evs|
  {
    if k == |evs| {
      assert evs[..k] == evs;
    } else {
      CalledBefore(Front(evs), k);
      assert Front(evs)[..k] == evs[..k];
    }
  }

  lemma {:induction false} OwnedThroughout(evs: seq<Record>, k: nat)
    requires Reconstruct(evs).Ok? && Plain(CalledNames(evs)) && 0 < k <= |evs|
    ensures LastOwned(evs[..k])
  {
    hide Agrees;
    hide Brackets;
    hide CalledNames;
    var upTo, rest := evs[..k], evs[k..];
    assert upTo + rest == evs;
    PushAllAppend(EMPTY, upTo, rest);
    CalledBefore(evs, k);
    RunAgreesThroughout(upTo);
    var b := LastBinding(upTo);
    if b.Some? {
      hide PushAll;
      hide Finish;
      OwnedHere(upTo, PushAll(EMPTY, upTo).value, rest);
    }
  }

  lemma {:induction false} OwnedHere(upTo: seq<Record>, s: Asm, rest: seq<Record>)
    requires upTo != [] && Agrees(upTo, s) && Shape(s) && PushAll(s, rest).Ok? && Finish(PushAll(s, rest).value).Ok?
    requires Plain(CalledNames(upTo)) && LastBinding(upTo).Some?
    ensures LastOwned(upTo)
  {
    hide PushAll;
    hide Finish;
    hide Skeleton;
    hide ExportNames;
    hide CalledNames;
    hide Kept;
    RunIsOwned(s, rest);
  }

  /** For every accepted recording. Each record stands rightly after those before it: calls and values
      refer to names already declared, a value with a binding name has a payload, its slot is 0 or
      continues the run before it, and no host record is refused. The exported calls recovered are the
      functions called, in order. And unless a called function is named like an import, calls, returns and
      markers nest, nothing but imports is open at the end, and every value of an exported call stands
      directly inside it. */
  lemma {:induction false} AcceptedIsWellFormed(evs: seq<Record>)
    requires Reconstruct(evs).Ok?
    ensures forall k :: 0 < k <= |evs| ==> LastOk(evs[..k])
    ensures ExportNames(Reconstruct(evs).value.crossings) == CalledNames(evs)
    ensures Plain(CalledNames(evs)) ==> Brackets(evs).Some? && MarkersOnly(Brackets(evs).value)
    ensures Plain(CalledNames(evs)) ==> forall k :: 0 < k <= |evs| ==> LastOwned(evs[..k])
  {
    hide Agrees;
    hide LastOk;
    hide LastOwned;
    hide Brackets;
    hide ExportNames;
    hide CalledNames;
    RunAgreesThroughout(evs);
    hide PushAll;
    FinishAgrees(evs, PushAll(EMPTY, evs).value);
    if Plain(CalledNames(evs)) {
      forall k | 0 < k <= |evs| ensures LastOwned(evs[..k]) { OwnedThroughout(evs, k); }
    }
  }

  lemma {:induction false} PushOne(s: Asm, ev: Record, rest: seq<Record>)
    requires Shape(s) && Push(s, ev).Ok?
    ensures PushAll(s, [ev] + rest) == PushAll(Push(s, ev).value, rest)
  {
    assert ([ev] + rest)[1..] == rest;
  }

  /** After one function and one variable are declared, and the function is called. */
  function Called(name: string, binding: string): Asm {
    var call := Crossing(0, 0, Export, name, 0, [], [], false, false);
    EMPTY.(functions := [name], varNames := [binding], crossings := [call], stack := [Open(0, name)])
  }

  lemma {:induction false} CalledState(name: string, binding: string, rest: seq<Record>)
    ensures Shape(Called(name, binding))
    ensures PushAll(EMPTY, [Function(name), VariableName(binding), Call(0)] + rest) == PushAll(Called(name, binding), rest)
  {
    hide PushAll;
    var a, b, c := Function(name), VariableName(binding), Call(0);
    var s1 := EMPTY.(functions := [name]);
    var s2 := s1.(varNames := [binding]);
    var s3 := Called(name, binding);
    assert EMPTY.functions + [name] == [name] && s1.varNames + [binding] == [binding];
    assert s2.crossings + s3.crossings == s3.crossings && s2.stack + s3.stack == s3.stack;
    assert Push(EMPTY, a) == Ok(s1) && Push(s1, b) == Ok(s2) && Push(s2, c) == Ok(s3);
    PushOne(s2, c, rest);
    PushOne(s1, b, [c] + rest);
    PushOne(EMPTY, a, [b] + ([c] + rest));
    assert [a, b, c] + rest == [a] + ([b] + ([c] + rest));
  }

  lemma {:induction false} ResultCloses(name: string, binding: string, v: RawValue)
    requires ParseImportLabel(name).Some? && ParseBindingName(binding) == Some(Binding(name, Ret, 0))
    ensures Shape(Called(name, binding))
    ensures var r := Push(Called(name, binding), Value(0, Some(v))); r.Ok? && Finish(r.value).Ok?
  {
    hide ParseImportLabel;
    hide ParseBindingName;
    var s := Called(name, binding);
    var t := s.(pending := Some(Run(name, Ret, [v])));
    var values: seq<RawValue> := [];
    assert values + [v] == [v];
    assert Push(s, Value(0, Some(v))) == Ok(t);
    var filled := s.crossings[0].(results := [v], hasResults := true);
    var u := s.(crossings := s.crossings[0 := filled]);
    assert CloseRun(t) == Ok(Pop(u));
  }

  /** An exported function named like an import: its result closes the call, and the recording is
      accepted although the call never returns. */
  lemma {:induction false} UnreturnedCall(index: uint32, v: RawValue)
    ensures var name := ImportLabel(index);
            var evs := [Function(name), VariableName(BindingName(name, Ret, 0)), Call(0), Value(0, Some(v))];
            Reconstruct(evs).Ok? && Brackets(evs) == Some([CallOpen(name)])
  {
    hide PushAll;
    hide Push;
    hide Finish;
    hide Called;
    hide Brackets;
    hide Labels.ImportLabel;
    hide BindingName;
    hide ParseBindingName;
    hide ParseImportLabel;
    var name, binding := ImportLabel(index), BindingName(ImportLabel(index), Ret, 0);
    var a, b, c, d := Function(name), VariableName(binding), Call(0), Value(0, Some(v));
    ImportLabelRoundTrip(index);
    BindingNameRoundTrip(name, Ret, 0);
    CalledState(name, binding, [d]);
    ResultCloses(name, binding, v);
    PushOne(Called(name, binding), d, []);
    PushNone(Push(Called(name, binding), d).value);
    assert [d] + [] == [d] && [a, b, c] + [d] == [a, b, c, d];
    OneCall(name, a, b, c, d);
  }

  lemma {:induction false} PushNone(s: Asm)
    requires Shape(s)
    ensures PushAll(s, []) == Ok(s)
  {}

  lemma {:induction false} OneCall(name: string, a: Record, b: Record, c: Record, d: Record)
    requires a == Function(name) && b.VariableName? && c == Call(0) && d.Value?
    ensures Brackets([a, b, c, d]) == Some([CallOpen(name)])
  {
    var none: seq<Record>, names: seq<string>, open: seq<Bracket> := [], [], [];
    assert Front([a]) == none && Last([a]) == a && Front([a, b]) == [a] && Last([a, b]) == b;
    assert Front([a, b, c]) == [a, b] && Last([a, b, c]) == c && Front([a, b, c, d]) == [a, b, c] && Last([a, b, c, d]) == d;
    assert names + [name] == [name] && [name] + names == [name] && open + [CallOpen(name)] == [CallOpen(name)];
    assert FunctionNames(none) == names && Brackets(none) == Some(open);
    assert FunctionNames([a]) == [name] && Brackets([a]) == Some(open);
    assert FunctionNames([a, b]) == [name] && Brackets([a, b]) == Some(open);
    assert Brackets([a, b, c]) == Some([CallOpen(name)]);
  }
}
