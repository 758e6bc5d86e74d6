/** Exactly which recordings the assembler undoes. An export named like an import label (or
    not named at all) leaves values that cannot be attributed to it; such a recording is
    never read back as what was recorded. */
module RoundTripExact {
  import opened Wrappers
  import opened Labels
  import opened Crossings
  import opened AssemblerSpec
  import opened Producer
  import opened RoundTrip

  // ---- values that can never be attributed -------------------------------

  predicate ImportLike(name: string) { ParseImportLabel(name).Some? }

  /** What no run of the assembler recovers for an export of that name. */
  predicate Starved(c: Crossing) {
    c.kind.Export? ==>
      (ImportLike(c.name) ==> c.args == []) && (c.name == "" ==> c.args == [] && c.results == [])
  }

  ghost predicate StarvedAt(cs: seq<Crossing>, i: nat) { i < |cs| && Starved(cs[i]) }

  ghost predicate AllStarved(cs: seq<Crossing>) { forall i: nat :: i < |cs| ==> StarvedAt(cs, i) }

  ghost predicate FrameAt(s: Asm, k: nat) {
    && k < |s.stack| && s.stack[k].idx < |s.crossings|
    && (s.crossings[s.stack[k].idx].kind.Export? ==> s.stack[k].tag == s.crossings[s.stack[k].idx].name)
  }

  ghost predicate Tagged(s: Asm) {
    && (forall k: nat :: k < |s.stack| ==> FrameAt(s, k))
    && AllStarved(s.crossings)
    && (s.pending.Some? ==> s.pending.value.tag != "")
  }

  lemma {:induction false} TaggedShape(s: Asm)
    requires Tagged(s)
    ensures Shape(s)
  {
    forall k | 0 <= k < |s.stack| ensures s.stack[k].idx < |s.crossings| { assert FrameAt(s, k); }
  }

  lemma {:induction false} TaggedPop(s: Asm)
    requires Tagged(s) && s.stack != []
    ensures Shape(s) && Tagged(Pop(s))
  {
    TaggedShape(s);
    forall k: nat | k < |Pop(s).stack| ensures FrameAt(Pop(s), k) { assert FrameAt(s, k); }
  }

  lemma {:induction false} TaggedUpdate(s: Asm, c: Crossing)
    requires Tagged(s) && Shape(s) && s.stack != [] && Starved(c)
    requires c.kind == TopCrossing(s).kind && c.name == TopCrossing(s).name
    ensures Tagged(UpdateTop(s, c))
  {
    var t := UpdateTop(s, c);
    forall k: nat | k < |t.stack| ensures FrameAt(t, k) { assert FrameAt(s, k); }
    forall i: nat | i < |t.crossings| ensures StarvedAt(t.crossings, i) { assert StarvedAt(s.crossings, i); }
  }

  lemma {:induction false} TaggedOpen(s: Asm, c: Crossing, tag: string)
    requires Tagged(s) && Starved(c) && (c.kind.Export? ==> c.name == tag)
    ensures Shape(s) && Tagged(OpenCrossing(s, c, tag)) && Tagged(Append(s, c))
  {
    TaggedShape(s);
    var t, u := OpenCrossing(s, c, tag), Append(s, c);
    forall k: nat | k < |t.stack| ensures FrameAt(t, k) { if k < |s.stack| { assert FrameAt(s, k); } }
    forall k: nat | k < |u.stack| ensures FrameAt(u, k) { assert FrameAt(s, k); }
    forall i: nat | i < |t.crossings| ensures StarvedAt(t.crossings, i) {
      if i < |s.crossings| { assert StarvedAt(s.crossings, i); }
    }
  }

  lemma {:induction false} TaggedDangling(s: Asm, keep: string, force: bool)
    requires Tagged(s)
    ensures Shape(s) && Tagged(CloseDanglingImports(s, keep, force))
    decreases |s.stack|
  {
    TaggedShape(s);
    if Dangling(s, keep, force) {
      TaggedPop(s);
      TaggedDangling(Pop(s), keep, force);
    }
  }

  lemma {:induction false} TaggedApply(s: Asm, run: Run)
    requires Tagged(s) && run.tag != ""
    ensures Shape(s)
    ensures var r := ApplyRun(s, run); r.Ok? ==> Tagged(r.value)
  {
    hide ParseImportLabel;
    TaggedShape(s);
    var imported := ParseImportLabel(run.tag);
    if imported.Some? {
      TaggedOpen(s, Fresh(s, Import).(index := imported.value, args := run.values), run.tag);
      TaggedOpen(s, Fresh(s, Import).(index := imported.value, results := run.values, hasResults := true), run.tag);
    }
    if s.stack != [] && Top(s).tag == run.tag {
      assert FrameAt(s, |s.stack| - 1) && StarvedAt(s.crossings, Top(s).idx);
      if run.role.Arg? {
        if imported.None? { TaggedUpdate(s, TopCrossing(s).(args := run.values)); }
      } else {
        var c := TopCrossing(s).(results := run.values, hasResults := true);
        TaggedUpdate(s, c);
        TaggedPop(UpdateTop(s, c));
      }
    }
  }

  lemma {:induction false} TaggedCloseRun(s: Asm)
    requires Tagged(s)
    ensures Shape(s)
    ensures var r := CloseRun(s); r.Ok? ==> Tagged(r.value)
  {
    hide ApplyRun;
    TaggedShape(s);
    if s.pending.Some? {
      var run, t := s.pending.value, s.(pending := None);
      forall k: nat | k < |t.stack| ensures FrameAt(t, k) { assert FrameAt(s, k); }
      var keep := if run.role.Ret? then run.tag else "";
      TaggedDangling(t, keep, false);
      TaggedApply(CloseDanglingImports(t, keep, false), run);
    }
  }

  /** The parts of a state the name tables and flags do not touch. */
  lemma {:induction false} TaggedSame(s: Asm, t: Asm)
    requires Tagged(s) && t.crossings == s.crossings && t.stack == s.stack
    requires t.pending.Some? ==> t.pending.value.tag != ""
    ensures Tagged(t)
  {
    forall k: nat | k < |t.stack| ensures FrameAt(t, k) { assert FrameAt(s, k); }
  }

  lemma {:induction false} TaggedEvent(s: Asm, marker: Marker)
    requires Tagged(s)
    ensures Shape(s)
    ensures var r := PushEvent(s, marker); r.Ok? ==> Tagged(r.value)
  {
    hide CloseRun;
    TaggedShape(s);
    TaggedCloseRun(s);
    if CloseRun(s).Ok? && marker.ImportEdge? {
      var t := CloseRun(s).value.(sawImportMarker := true);
      TaggedSame(CloseRun(s).value, t);
      TaggedOpen(t, Fresh(t, Import).(index := marker.index, marked := true), ImportLabel(marker.index));
      if t.stack != [] {
        TaggedPop(t);
        if TopCrossing(t).kind.Import? { TaggedUpdate(t, TopCrossing(t).(marked := true)); }
      }
    }
  }

  lemma {:induction false} TaggedValue(s: Asm, id: nat, value: Option<RawValue>)
    requires Tagged(s)
    ensures Shape(s)
    ensures var r := PushValue(s, id, value); r.Ok? ==> Tagged(r.value)
  {
    hide CloseRun;
    TaggedShape(s);
    TaggedCloseRun(s);
    var r := PushValue(s, id, value);
    if r.Ok? && ParseBindingName(s.varNames[id]).Some? {
      BoundTag(s.varNames[id]);
      var closed := s.pending.Some? && StartsRun(s.pending.value, ParseBindingName(s.varNames[id]).value);
      TaggedSame(if closed then CloseRun(s).value else s, r.value);
    }
  }

  lemma {:induction false} BoundTag(name: string)
    ensures ParseBindingName(name).Some? ==> ParseBindingName(name).value.tag != ""
  {}

  lemma {:induction false} TaggedPush(s: Asm, ev: Record)
    requires Tagged(s)
    ensures Shape(s)
    ensures var r := Push(s, ev); r.Ok? ==> Tagged(r.value)
  {
    hide CloseRun;
    hide PushEvent;
    hide PushValue;
    TaggedShape(s);
    TaggedCloseRun(s);
    match ev
    case Event(marker) => TaggedEvent(s, marker);
    case Value(id, value) => TaggedValue(s, id, value);
    case Call(id) =>
      if CloseRun(s).Ok? && id < |CloseRun(s).value.functions| {
        var t := CloseRun(s).value;
        TaggedOpen(t, Fresh(t, Export).(name := t.functions[id]), t.functions[id]);
      }
    case Return =>
      if CloseRun(s).Ok? {
        TaggedDangling(CloseRun(s).value, "", false);
        var t := CloseDanglingImports(CloseRun(s).value, "", false);
        if t.stack != [] { TaggedPop(t); }
      }
    case Function(name) =>
      if CloseRun(s).Ok? { TaggedSame(CloseRun(s).value, CloseRun(s).value.(functions := CloseRun(s).value.functions + [name])); }
    case VariableName(name) => TaggedSame(s, s.(varNames := s.varNames + [name]));
    case _ =>
    var r := Transition(s, ev);
    if r.Ok? { TaggedSame(r.value, NoteGroupBoundary(r.value)); }
  }

  lemma {:induction false} TaggedRun(s: Asm, evs: seq<Record>)
    requires Tagged(s)
    ensures Shape(s)
    ensures var r := PushAll(s, evs); r.Ok? ==> Tagged(r.value)
    decreases |evs|
  {
    hide Push;
    TaggedShape(s);
    if evs != [] {
      TaggedPush(s, evs[0]);
      if Push(s, evs[0]).Ok? { TaggedRun(Push(s, evs[0]).value, evs[1..]); }
    }
  }

  lemma {:induction false} TaggedReconstruct(evs: seq<Record>)
    ensures var r := Reconstruct(evs); r.Ok? ==> AllStarved(r.value.crossings)
  {
    hide CloseRun;
    TaggedRun(EMPTY, evs);
    var r := PushAll(EMPTY, evs);
    if r.Ok? { TaggedCloseRun(r.value); }
  }

  // ---- export frames on the stack ----------------------------------------

  /** How many export frames are open. */
  function Frames(cs: seq<Crossing>, stack: seq<Open>): nat
    requires forall k :: 0 <= k < |stack| ==> stack[k].idx < |cs|
  {
    if stack == [] then 0
    else
      var front, top := stack[..|stack| - 1], stack[|stack| - 1];
      Frames(cs, front) + (if cs[top.idx].kind.Export? then 1 else 0)
  }

  function OpenFrames(s: Asm): nat
    requires Shape(s)
  {
    Frames(s.crossings, s.stack)
  }

  lemma {:induction false} FramesSame(cs: seq<Crossing>, ds: seq<Crossing>, stack: seq<Open>)
    requires forall k :: 0 <= k < |stack| ==> stack[k].idx < |cs|
    requires |cs| <= |ds| && forall i :: 0 <= i < |cs| ==> ds[i].kind == cs[i].kind
    ensures Frames(ds, stack) == Frames(cs, stack)
    decreases |stack|
  {
    if stack != [] { FramesSame(cs, ds, stack[..|stack| - 1]); }
  }

  lemma {:induction false} FramesOpen(s: Asm, c: Crossing, tag: string)
    requires Shape(s)
    ensures OpenFrames(OpenCrossing(s, c, tag)) == OpenFrames(s) + (if c.kind.Export? then 1 else 0)
    ensures OpenFrames(Append(s, c)) == OpenFrames(s)
  {
    FramesSame(s.crossings, s.crossings + [c], s.stack);
    var t := OpenCrossing(s, c, tag);
    assert t.stack[..|t.stack| - 1] == s.stack;
  }

  lemma {:induction false} FramesDangling(s: Asm, keep: string, force: bool)
    requires Shape(s)
    ensures OpenFrames(CloseDanglingImports(s, keep, force)) == OpenFrames(s)
    decreases |s.stack|
  {
    if Dangling(s, keep, force) { FramesDangling(Pop(s), keep, force); }
  }

  lemma {:induction false} FramesApply(s: Asm, run: Run)
    requires Shape(s)
    ensures var r := ApplyRun(s, run); r.Ok? ==> OpenFrames(r.value) <= OpenFrames(s)
  {
    hide ParseImportLabel;
    var imported := ParseImportLabel(run.tag);
    if imported.Some? {
      FramesOpen(s, Fresh(s, Import).(index := imported.value, args := run.values), run.tag);
      FramesOpen(s, Fresh(s, Import).(index := imported.value, results := run.values, hasResults := true), run.tag);
    }
    if s.stack != [] {
      FramesUpdate(s, TopCrossing(s).(args := run.values));
      FramesUpdate(s, TopCrossing(s).(results := run.values, hasResults := true));
    }
  }

  lemma {:induction false} FramesUpdate(s: Asm, c: Crossing)
    requires Shape(s) && s.stack != [] && c.kind == TopCrossing(s).kind
    ensures OpenFrames(UpdateTop(s, c)) == OpenFrames(s)
  {
    FramesSame(s.crossings, UpdateTop(s, c).crossings, s.stack);
  }

  lemma {:induction false} FramesCloseRun(s: Asm)
    requires Shape(s)
    ensures var r := CloseRun(s); r.Ok? ==> OpenFrames(r.value) <= OpenFrames(s)
  {
    hide ApplyRun;
    if s.pending.Some? {
      var run, t := s.pending.value, s.(pending := None);
      var keep := if run.role.Ret? then run.tag else "";
      FramesDangling(t, keep, false);
      FramesApply(CloseDanglingImports(t, keep, false), run);
    }
  }

  function Weight(ev: Record): int {
    if ev.Call? then 1 else if ev.Return? then -1 else 0
  }

  function Balance(evs: seq<Record>): int {
    if evs == [] then 0 else Weight(evs[0]) + Balance(evs[1..])
  }

  lemma {:induction false} BalanceAppend(a: seq<Record>, b: seq<Record>)
    ensures Balance(a + b) == Balance(a) + Balance(b)
    decreases |a|
  {
    if a == [] {
      assert a + b == b;
    } else {
      assert (a + b)[1..] == a[1..] + b;
      BalanceAppend(a[1..], b);
    }
  }

  lemma {:induction false} FramesEvent(s: Asm, marker: Marker)
    requires Shape(s)
    ensures var r := PushEvent(s, marker); r.Ok? ==> OpenFrames(r.value) <= OpenFrames(s)
  {
    hide CloseRun;
    FramesCloseRun(s);
    if CloseRun(s).Ok? && marker.ImportEdge? {
      var t := CloseRun(s).value.(sawImportMarker := true);
      FramesOpen(t, Fresh(t, Import).(index := marker.index, marked := true), ImportLabel(marker.index));
      if t.stack != [] { FramesUpdate(t, TopCrossing(t).(marked := true)); }
    }
  }

  /** A `Call` opens one frame, a `Return` closes one, and nothing else opens any. */
  lemma {:induction false} FramesPush(s: Asm, ev: Record)
    requires Shape(s)
    ensures var r := Push(s, ev); r.Ok? ==> OpenFrames(r.value) <= OpenFrames(s) + Weight(ev)
  {
    hide CloseRun;
    FramesCloseRun(s);
    match ev
    case Event(marker) => FramesEvent(s, marker);
    case Call(id) =>
      if CloseRun(s).Ok? && id < |CloseRun(s).value.functions| {
        var t := CloseRun(s).value;
        FramesOpen(t, Fresh(t, Export).(name := t.functions[id]), t.functions[id]);
      }
    case Return =>
      if CloseRun(s).Ok? { FramesDangling(CloseRun(s).value, "", false); }
    case _ =>
  }

  lemma {:induction false} FramesRun(s: Asm, evs: seq<Record>)
    requires Shape(s)
    ensures var r := PushAll(s, evs); r.Ok? ==> OpenFrames(r.value) <= OpenFrames(s) + Balance(evs)
    decreases |evs|
  {
    hide Push;
    if evs != [] {
      FramesPush(s, evs[0]);
      if Push(s, evs[0]).Ok? { FramesRun(Push(s, evs[0]).value, evs[1..]); }
    }
  }

  lemma {:induction false} BalanceAppend3(a: seq<Record>, b: seq<Record>, c: seq<Record>)
    ensures Balance(a + b + c) == Balance(a) + Balance(b) + Balance(c)
  {
    BalanceAppend(a + b, c);
    BalanceAppend(a, b);
  }

  lemma {:induction false} BalanceBindings(tag: string, role: Role, values: seq<RawValue>, slot: nat, t: Tables)
    requires slot <= |values|
    ensures Balance(Bindings(tag, role, values, slot, t).records) == 0
    decreases |values| - slot
  {
    hide BindingName;
    hide IndexOf;
    hide Intern;
    if slot < |values| {
      var name := BindingName(tag, role, slot);
      var id := IndexOf(t.varNames, name);
      var naming := if id < |t.varNames| then [] else [VariableName(name)];
      var value := [Value(id, Some(values[slot]))];
      var t1 := t.(varNames := Intern(t.varNames, name));
      BalanceBindings(tag, role, values, slot + 1, t1);
      BalanceAppend3(naming, value, Bindings(tag, role, values, slot + 1, t1).records);
      BalanceOne(Value(id, Some(values[slot])));
      BalanceOne(VariableName(name));
    }
  }

  lemma {:induction false} BalanceOne(ev: Record)
    ensures Balance([ev]) == Weight(ev)
  {
    assert [ev][1..] == [];
  }

  lemma {:induction false} BalanceValues(tag: string, role: Role, values: seq<RawValue>, t: Tables)
    ensures Balance(Values(tag, role, values, t).records) == 0
  {
    if values != [] {
      BalanceBindings(tag, role, values, 0, t);
      BalanceOne(Delimiter);
      BalanceAppend([Delimiter], Bindings(tag, role, values, 0, t).records);
    }
  }

  lemma {:induction false} BalanceDelimiters(n: nat)
    ensures Balance(Delimiters(n)) == 0
  {
    if n > 0 {
      BalanceDelimiters(n - 1);
      BalanceOne(Delimiter);
      BalanceAppend([Delimiter], Delimiters(n - 1));
    }
  }

  /** The three parts of a rendered crossing. */
  function Opening(call: Call, t: Tables): Out {
    match call
    case ExportCall(lead, name, args, _, _) =>
      var before := Values(name, Arg, args, t.(functions := Intern(t.functions, name)));
      Out(Delimiters(lead + 1) + Naming(name, t) + [Record.Call(IndexOf(t.functions, name))]
          + before.records + [Event(ExportEdge)], before.tables)
    case ImportCall(lead, index, args, _, _) =>
      var before := Values(ImportLabel(index), Arg, args, t);
      Out(Delimiters(lead) + before.records + [Event(ImportEdge(index, true))], before.tables)
  }

  function Closing(call: Call, t: Tables): Out {
    match call
    case ExportCall(_, name, _, results, _) =>
      var after := Values(name, Ret, results, t);
      Out(after.records + [Return] + [Event(ExportEdge)], after.tables)
    case ImportCall(_, index, _, results, _) =>
      var after := Values(ImportLabel(index), Ret, results, t);
      Out(after.records + [Event(ImportEdge(index, false))], after.tables)
  }

  lemma {:induction false} RenderParts(call: Call, t: Tables)
    ensures var a := Opening(call, t);
            var b := RenderForest(call.body, a.tables);
            var c := Closing(call, b.tables);
            Render(call, t) == Out(a.records + b.records + c.records, c.tables)
  {
    var a := Opening(call, t);
    var b := RenderForest(call.body, a.tables);
    var c := Closing(call, b.tables);
    assert Render(call, t).records == a.records + b.records + c.records;
  }

  lemma {:induction false} BalanceOpening(call: Call, t: Tables)
    ensures Balance(Opening(call, t).records) == (if call.ExportCall? then 1 else 0)
  {
    match call
    case ExportCall(lead, name, args, _, _) =>
      var t0 := t.(functions := Intern(t.functions, name));
      var a, b, c := Delimiters(lead + 1), Naming(name, t), [Record.Call(IndexOf(t.functions, name))];
      BalanceDelimiters(lead + 1);
      BalanceOne(Function(name));
      BalanceOne(c[0]);
      BalanceAppend3(a, b, c);
      BalanceValues(name, Arg, args, t0);
      BalanceOne(Event(ExportEdge));
      BalanceAppend3(a + b + c, Values(name, Arg, args, t0).records, [Event(ExportEdge)]);
    case ImportCall(lead, index, args, _, _) =>
      BalanceDelimiters(lead);
      BalanceValues(ImportLabel(index), Arg, args, t);
      BalanceOne(Event(ImportEdge(index, true)));
      BalanceAppend3(Delimiters(lead), Values(ImportLabel(index), Arg, args, t).records, [Event(ImportEdge(index, true))]);
  }

  lemma {:induction false} BalanceClosing(call: Call, t: Tables)
    ensures Balance(Closing(call, t).records) == (if call.ExportCall? then -1 else 0)
  {
    match call
    case ExportCall(_, name, _, results, _) =>
      BalanceValues(name, Ret, results, t);
      BalanceOne(Return);
      BalanceOne(Event(ExportEdge));
      BalanceAppend3(Values(name, Ret, results, t).records, [Return], [Event(ExportEdge)]);
    case ImportCall(_, index, _, results, _) =>
      BalanceValues(ImportLabel(index), Ret, results, t);
      BalanceOne(Event(ImportEdge(index, false)));
      BalanceAppend(Values(ImportLabel(index), Ret, results, t).records, [Event(ImportEdge(index, false))]);
  }

  lemma {:induction false} BalanceCall(call: Call, t: Tables)
    ensures Balance(Render(call, t).records) == 0
    decreases call
  {
    var a := Opening(call, t);
    var b := RenderForest(call.body, a.tables);
    RenderParts(call, t);
    BalanceOpening(call, t);
    BalanceForest(call.body, a.tables);
    BalanceClosing(call, b.tables);
    BalanceAppend3(a.records, b.records, Closing(call, b.tables).records);
  }

  lemma {:induction false} BalanceForest(f: Forest, t: Tables)
    ensures Balance(RenderForest(f, t).records) == 0
    decreases f
  {
    if f.Cons? {
      var out := Render(f.head, t);
      BalanceCall(f.head, t);
      BalanceForest(f.tail, out.tables);
      BalanceAppend(out.records, RenderForest(f.tail, out.tables).records);
    }
  }

  // ---- a result run that closes its own frame ----------------------------

  /** From `s`, `evs` are refused or leave fewer than `n` export frames open. */
  ghost predicate Sinks(s: Asm, evs: seq<Record>, n: int) {
    Shape(s) && (PushAll(s, evs).Ok? ==> OpenFrames(PushAll(s, evs).value) < n)
  }

  lemma {:induction false} SinksLater(s: Asm, a: seq<Record>, t: Asm, b: seq<Record>, n: int)
    requires Runs(s, a, t) && Sinks(t, b, n)
    ensures Sinks(s, a + b, n)
  {
    PushAllAppend(s, a, b);
  }

  lemma {:induction false} SinksOn(s: Asm, a: seq<Record>, b: seq<Record>, n: int)
    requires Sinks(s, a, n)
    ensures Sinks(s, a + b, n + Balance(b))
  {
    hide Push;
    PushAllAppend(s, a, b);
    if PushAll(s, a).Ok? { FramesRun(PushAll(s, a).value, b); }
  }

  /** Sizes fit, and only results are ever left unattributed. */
  predicate Filled(call: Call)
    decreases call
  {
    && |call.args| <= MAX_INT && |call.results| <= MAX_INT
    && (call.ExportCall? ==> Starved(CrossingOf(call, 0, 0)))
    && FilledForest(call.body)
  }

  predicate FilledForest(f: Forest)
    decreases f
  {
    f.Cons? ==> Filled(f.head) && FilledForest(f.tail)
  }

  lemma {:induction false} FramesGrown(s: Asm, cs: seq<Crossing>, t: Tables, marked: bool)
    requires Shape(s)
    ensures Shape(Grown(s, cs, t, marked)) && OpenFrames(Grown(s, cs, t, marked)) == OpenFrames(s)
  {
    FramesSame(s.crossings, s.crossings + cs, s.stack);
  }

  lemma {:induction false} FramesOpened(s: Asm, c: Crossing, tag: string)
    requires Shape(s)
    ensures Shape(Opened(s, c, tag))
    ensures OpenFrames(Opened(s, c, tag)) == OpenFrames(s) + (if c.kind.Export? then 1 else 0)
  {
    FramesOpen(s, c, tag);
  }

  /** The result run of an export named like an import closes its frame; `Return` then has
      to close another one. */
  lemma {:induction false} ReturnSinks(u: Asm, name: string, results: seq<RawValue>)
    requires Shape(u) && u.stack != [] && Top(u).tag == name && TopCrossing(u).kind.Export? && !TopCrossing(u).marked
    requires u.pending == RunOf(name, Ret, results) && results != [] && ImportLike(name)
    ensures var r := Push(u, Return); r.Ok? ==> OpenFrames(r.value) < OpenFrames(u) - 1
  {
    hide ParseImportLabel;
    var c := TopCrossing(u).(results := results, hasResults := true);
    var v := u.(pending := None);
    FramesUpdate(v, c);
    var w := Pop(UpdateTop(v, c));
    assert CloseRun(u) == Ok(w);
    assert OpenFrames(w) == OpenFrames(u) - 1;
    FramesDangling(w, "", false);
  }

  lemma {:induction false} ClosingSinks(u: Asm, call: Call, t: Tables)
    requires Idle(u, t) && call.ExportCall? && |call.results| <= MAX_INT
    requires u.stack != [] && Top(u).tag == call.name && TopCrossing(u).kind.Export? && !TopCrossing(u).marked
    requires call.results != [] && ImportLike(call.name)
    ensures Sinks(u, Closing(call, t).records, OpenFrames(u) - 1)
  {
    hide Push;
    var after := Values(call.name, Ret, call.results, t);
    var v := u.(varNames := after.tables.varNames, pending := RunOf(call.name, Ret, call.results));
    ValuesRun(u, call.name, Ret, call.results, t);
    ReturnSinks(v, call.name, call.results);
    assert [Return][1..] == [];
    assert Sinks(v, [Return], OpenFrames(u) - 1);
    SinksLater(u, after.records, v, [Return], OpenFrames(u) - 1);
    BalanceOne(Event(ExportEdge));
    SinksOn(u, after.records + [Return], [Event(ExportEdge)], OpenFrames(u) - 1);
  }

  lemma {:induction false} OnlyResultsBad(call: Call)
    requires Filled(call) && !Renderable(call) && RenderableForest(call.body)
    ensures call.ExportCall? && call.results != [] && ImportLike(call.name) && |call.results| <= MAX_INT
  {
    hide ParseImportLabel;
  }

  lemma {:induction false} BadCallSinks(s: Asm, call: Call, t: Tables)
    requires Quiet(s, t) && Filled(call) && !Renderable(call)
    ensures Sinks(s, Render(call, t).records, OpenFrames(s))
    decreases call, 0
  {
    hide Runs;
    hide Sinks;
    hide Opening;
    hide Closing;
    hide Render;
    hide Frames;
    var a := Opening(call, t);
    var b := RenderForest(call.body, a.tables);
    var c := Closing(call, b.tables);
    RenderParts(call, t);
    BalanceClosing(call, b.tables);
    var u := CallOpens(s, call, t);
    if RenderableForest(call.body) {
      BodyRun(u, call.body, a.tables);
      var cs := PreorderForest(call.body, |u.stack|, |u.crossings|);
      var v := Grown(u, cs, b.tables, HasImportForest(call.body));
      FramesGrown(u, cs, b.tables, HasImportForest(call.body));
      assert TopCrossing(v) == TopCrossing(u);
      OnlyResultsBad(call);
      ClosingSinks(v, call, b.tables);
      Chain(s, a.records, u, b.records, v);
      SinksLater(s, a.records + b.records, v, c.records, OpenFrames(s));
    } else {
      BadForestSinks(u, call.body, a.tables);
      SinksLater(s, a.records, u, b.records, OpenFrames(u));
      SinksOn(s, a.records + b.records, c.records, OpenFrames(u));
    }
  }

  /** Arguments are always attributed in a filled call: the opening part is read as made. */
  lemma {:induction false} CallOpens(s: Asm, call: Call, t: Tables) returns (u: Asm)
    requires Quiet(s, t) && Filled(call)
    ensures Quiet(u, Opening(call, t).tables) && u.stack != []
    ensures Runs(s, Opening(call, t).records, u)
    ensures OpenFrames(u) == OpenFrames(s) + (if call.ExportCall? then 1 else 0)
    ensures call.ExportCall? ==> Top(u).tag == call.name && TopCrossing(u).kind.Export? && !TopCrossing(u).marked
  {
    hide Runs;
    var before := Opening(call, t).tables;
    var c0 := CrossingOf(call, |s.stack|, |s.crossings|).(results := [], hasResults := false);
    if call.ExportCall? {
      ExportOpens(s, ExportCall(call.lead, call.name, call.args, [], call.body), t);
      u := Opened(s, c0, call.name).(functions := before.functions, varNames := before.varNames);
      FramesOpened(s, c0, call.name);
    } else {
      ImportOpens(s, call, t);
      u := Opened(s, c0, ImportLabel(call.index)).(sawImportMarker := true, varNames := before.varNames);
      FramesOpened(s, c0, ImportLabel(call.index));
    }
  }

  lemma {:induction false} BadForestSinks(s: Asm, f: Forest, t: Tables)
    requires Quiet(s, t) && FilledForest(f) && !RenderableForest(f)
    ensures Sinks(s, RenderForest(f, t).records, OpenFrames(s))
    decreases f, 0
  {
    hide Runs;
    hide Sinks;
    hide Render;
    hide Grown;
    hide OpenFrames;
    var out := Render(f.head, t);
    var rest := RenderForest(f.tail, out.tables);
    if Renderable(f.head) {
      if f.head.ExportCall? { ExportRun(s, f.head, t); } else { ImportRun(s, f.head, t); }
      var first := Producer.Preorder(f.head, |s.stack|, |s.crossings|);
      var u := Grown(s, first, out.tables, HasImport(f.head));
      GrownQuiet(s, t, first, out.tables, HasImport(f.head));
      FramesGrown(s, first, out.tables, HasImport(f.head));
      BadForestSinks(u, f.tail, out.tables);
      SinksLater(s, out.records, u, rest.records, OpenFrames(s));
    } else {
      BadCallSinks(s, f.head, t);
      BalanceForest(f.tail, out.tables);
      SinksOn(s, out.records, rest.records, OpenFrames(s));
    }
  }

  // ---- the theorem -------------------------------------------------------

  /** Tuples are no longer than a machine integer can number. */
  predicate Sized(f: Forest)
    decreases f
  {
    f.Cons? ==> |f.head.args| <= MAX_INT && |f.head.results| <= MAX_INT && Sized(f.head.body) && Sized(f.tail)
  }

  lemma {:induction false} StarvedPreorder(f: Forest, depth: nat, seqNo: nat)
    requires Sized(f) && AllStarved(PreorderForest(f, depth, seqNo))
    ensures FilledForest(f)
    decreases f
  {
    if f.Cons? {
      var first := Producer.Preorder(f.head, depth, seqNo);
      var body := PreorderForest(f.head.body, depth + 1, seqNo + 1);
      var rest := PreorderForest(f.tail, depth, seqNo + |first|);
      var all := PreorderForest(f, depth, seqNo);
      assert all == first + rest && first == [CrossingOf(f.head, depth, seqNo)] + body;
      assert StarvedAt(all, 0);
      forall i: nat | i < |body| ensures StarvedAt(body, i) { assert StarvedAt(all, i + 1); }
      forall i: nat | i < |rest| ensures StarvedAt(rest, i) { assert StarvedAt(all, |first| + i); }
      StarvedPreorder(f.head.body, depth + 1, seqNo + 1);
      StarvedPreorder(f.tail, depth, seqNo + |first|);
    }
  }

  /** The recording of `f` is read back as `f` if and only if every export with values has a
      name that is neither empty nor an import label. */
  lemma {:induction false} RecoveredExactlyWhenRenderable(f: Forest)
    requires Sized(f)
    ensures var r := Reconstruct(Recording(f));
            r.Ok? && r.value.crossings == PreorderForest(f, 0, 0) <==> RenderableForest(f)
  {
    var r := Reconstruct(Recording(f));
    if RenderableForest(f) {
      ReconstructUndoesRecording(f);
    } else if r.Ok? && r.value.crossings == PreorderForest(f, 0, 0) {
      TaggedReconstruct(Recording(f));
      StarvedPreorder(f, 0, 0);
      BadForestSinks(EMPTY, f, Tables([], []));
      assert false;
    }
  }

  /** In particular an export called `import #3` with one argument is not read back. */
  lemma {:induction false} ImportLikeNameIsNotRecovered(v: RawValue)
    ensures var f := Cons(ExportCall(0, ImportLabel(3), [v], [], Nil), Nil);
            var r := Reconstruct(Recording(f));
            r.Err? || r.value.crossings != PreorderForest(f, 0, 0)
  {
    ImportLabelRoundTrip(3);
    RecoveredExactlyWhenRenderable(Cons(ExportCall(0, ImportLabel(3), [v], [], Nil), Nil));
  }
}
