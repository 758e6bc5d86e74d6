/** The assembler undoes the producer: from the records of any tree of crossings it recovers
    exactly the tree's preorder, with one call group per root. */
module RoundTrip {
  import opened Wrappers
  import opened Labels
  import opened Crossings
  import opened AssemblerSpec
  import opened Producer

  /** Pushing `evs` takes `s` to `t`. */
  ghost predicate Runs(s: Asm, evs: seq<Record>, t: Asm) { Shape(s) && PushAll(s, evs) == Ok(t) }

  lemma {:induction false} Chain(s: Asm, a: seq<Record>, t: Asm, b: seq<Record>, u: Asm)
    requires Runs(s, a, t) && Runs(t, b, u)
    ensures Runs(s, a + b, u)
  {
    PushAllAppend(s, a, b);
  }

  lemma {:induction false} Still(s: Asm)
    requires Shape(s)
    ensures Runs(s, [], s)
  {}

  lemma {:induction false} One(s: Asm, ev: Record, t: Asm)
    requires Shape(s) && Push(s, ev) == Ok(t)
    ensures Runs(s, [ev], t)
  {
    assert [ev][1..] == [];
    assert PushAll(t, []) == Ok(t);
  }

  /** No record is needed to complete a group that is already complete. */
  ghost predicate Noted(s: Asm) { Shape(s) && NoteGroupBoundary(s) == s }

  /** No run in flight, and the name tables agree with the producer's. */
  ghost predicate Idle(s: Asm, t: Tables) {
    && Shape(s) && s.pending.None?
    && s.functions == t.functions && s.varNames == t.varNames
    && (s.stack == [] ==> s.groupStart == |s.crossings|)
  }

  /** Between crossings: idle, and nothing loose on top of the stack. */
  ghost predicate Quiet(s: Asm, t: Tables) {
    Idle(s, t) && (s.stack != [] ==> TopCrossing(s).kind.Export? || TopCrossing(s).marked)
  }

  function RunOf(tag: string, role: Role, values: seq<RawValue>): Option<Run> {
    if values == [] then None else Some(Run(tag, role, values))
  }

  // ---- value runs --------------------------------------------------------

  /** One `Value` record extends the run in flight. */
  lemma {:induction false} ValueStep(s: Asm, tag: string, role: Role, values: seq<RawValue>, slot: nat, id: nat)
    requires slot < |values| <= MAX_INT && tag != ""
    requires Shape(s) && s.pending == RunOf(tag, role, values[..slot])
    requires id < |s.varNames| && s.varNames[id] == BindingName(tag, role, slot)
    ensures Push(s, Value(id, Some(values[slot]))) == Ok(s.(pending := RunOf(tag, role, values[..slot + 1])))
  {
    hide ParseBindingName;
    hide BindingName;
    hide CloseRun;
    BindingNameRoundTrip(tag, role, slot);
    assert values[..slot + 1] == values[..slot] + [values[slot]];
  }

  /** The name of a binding is written before its first use. */
  lemma {:induction false} NamingStep(s: Asm, name: string)
    requires Noted(s)
    ensures var known := IndexOf(s.varNames, name) < |s.varNames|;
            Runs(s, if known then [] else [VariableName(name)], s.(varNames := Intern(s.varNames, name)))
  {
    if IndexOf(s.varNames, name) == |s.varNames| {
      One(s, VariableName(name), s.(varNames := s.varNames + [name]));
    }
  }

  lemma {:induction false} BindingsRun(s: Asm, tag: string, role: Role, values: seq<RawValue>, slot: nat, t: Tables)
    requires slot <= |values| <= MAX_INT && tag != ""
    requires Noted(s) && s.varNames == t.varNames && s.functions == t.functions
    requires s.pending == RunOf(tag, role, values[..slot])
    ensures var out := Bindings(tag, role, values, slot, t);
            && out.tables.functions == t.functions
            && Runs(s, out.records, s.(varNames := out.tables.varNames, pending := RunOf(tag, role, values)))
    decreases |values| - slot
  {
    hide Runs;
    hide Push;
    hide BindingName;
    if slot == |values| {
      assert values[..slot] == values;
      Still(s);
    } else {
      var name := BindingName(tag, role, slot);
      var id := IndexOf(t.varNames, name);
      var s1 := s.(varNames := Intern(t.varNames, name));
      var s2 := s1.(pending := RunOf(tag, role, values[..slot + 1]));
      var naming := if id < |t.varNames| then [] else [VariableName(name)];
      var value := [Value(id, Some(values[slot]))];
      NamingStep(s, name);
      ValueStep(s1, tag, role, values, slot, id);
      One(s1, Value(id, Some(values[slot])), s2);
      Chain(s, naming, s1, value, s2);
      var rest := Bindings(tag, role, values, slot + 1, t.(varNames := s1.varNames));
      BindingsRun(s2, tag, role, values, slot + 1, t.(varNames := s1.varNames));
      Chain(s, naming + value, s2, rest.records,
            s.(varNames := rest.tables.varNames, pending := RunOf(tag, role, values)));
    }
  }

  lemma {:induction false} ValuesRun(s: Asm, tag: string, role: Role, values: seq<RawValue>, t: Tables)
    requires |values| <= MAX_INT && (values != [] ==> tag != "")
    requires Idle(s, t)
    ensures var out := Values(tag, role, values, t);
            && out.tables.functions == t.functions
            && Runs(s, out.records, s.(varNames := out.tables.varNames, pending := RunOf(tag, role, values)))
  {
    if values != [] {
      One(s, Delimiter, s);
      BindingsRun(s, tag, role, values, 0, t);
      var out := Bindings(tag, role, values, 0, t);
      Chain(s, [Delimiter], s, out.records,
            s.(varNames := out.tables.varNames, pending := RunOf(tag, role, values)));
    }
  }

  lemma {:induction false} DelimitersRun(s: Asm, t: Tables, n: nat)
    requires Idle(s, t)
    ensures Runs(s, Delimiters(n), s)
  {
    if n > 0 {
      One(s, Delimiter, s);
      DelimitersRun(s, t, n - 1);
      Chain(s, [Delimiter], s, Delimiters(n - 1), s);
    }
  }

  // ---- the two brackets --------------------------------------------------

  /** `s` with `c` open on top. */
  function Opened(s: Asm, c: Crossing, tag: string): Asm {
    s.(crossings := s.crossings + [c], stack := s.stack + [Open(|s.crossings|, tag)])
  }

  /** An `ENTER` marker opens the import, whether or not its argument run already has. */
  lemma {:induction false} EnterImport(s: Asm, t: Tables, index: uint32, args: seq<RawValue>)
    requires Quiet(s, t)
    ensures var c := Fresh(s, Import).(index := index, args := args, marked := true);
            Push(s.(pending := RunOf(ImportLabel(index), Arg, args)), Event(ImportEdge(index, true))) ==
            Ok(Opened(s, c, ImportLabel(index)).(sawImportMarker := true))
  {
    ImportLabelRoundTrip(index);
    if args != [] {
      assert !Dangling(s, "", false);
      var c := Fresh(s, Import).(index := index, args := args);
      var u := OpenCrossing(s, c, ImportLabel(index));
      assert u.crossings[|s.crossings| := c.(marked := true)] == s.crossings + [c.(marked := true)];
    }
  }

  /** A `LEAVE` marker closes it, after its result run. */
  lemma {:induction false} LeaveImport(s: Asm, n: nat, index: uint32, results: seq<RawValue>)
    requires Shape(s) && s.pending.None? && s.stack != [] && n < |s.crossings|
    requires Top(s) == Open(n, ImportLabel(index))
    requires var c := s.crossings[n]; c.kind.Import? && c.index == index && c.marked && c.results == [] && !c.hasResults
    ensures var c := s.crossings[n].(results := results, hasResults := results != []);
            Push(s.(pending := RunOf(ImportLabel(index), Ret, results)), Event(ImportEdge(index, false))) ==
            Ok(NoteGroupBoundary(Pop(s.(crossings := s.crossings[n := c], sawImportMarker := true))))
  {
    ImportLabelRoundTrip(index);
    if results == [] {
      assert s.crossings[n := s.crossings[n]] == s.crossings;
    }
  }

  /** The argument run of an export is complete at its realm marker. */
  lemma {:induction false} ExportArguments(s: Asm, n: nat, name: string, args: seq<RawValue>)
    requires Shape(s) && s.pending.None? && s.stack != [] && n < |s.crossings|
    requires Top(s) == Open(n, name) && s.crossings[n].kind.Export? && s.crossings[n].args == []
    requires args != [] ==> ParseImportLabel(name).None?
    ensures Push(s.(pending := RunOf(name, Arg, args)), Event(ExportEdge)) ==
            Ok(s.(crossings := s.crossings[n := s.crossings[n].(args := args)]))
  {
    if args == [] {
      assert s.crossings[n := s.crossings[n]] == s.crossings;
    }
  }

  /** The result run of an export fills in its results and leaves its frame open. */
  lemma {:induction false} ExportResults(s: Asm, n: nat, name: string, results: seq<RawValue>)
    requires Shape(s) && s.pending.None? && s.stack != [] && n < |s.crossings|
    requires Top(s) == Open(n, name)
    requires var c := s.crossings[n]; c.kind.Export? && c.results == [] && !c.hasResults
    requires results != [] ==> ParseImportLabel(name).None?
    ensures CloseRun(s.(pending := RunOf(name, Ret, results))) ==
            Ok(s.(crossings := s.crossings[n := s.crossings[n].(results := results, hasResults := results != [])]))
  {
    hide ParseImportLabel;
    if results == [] {
      assert s.crossings[n := s.crossings[n]] == s.crossings;
    } else {
      assert !Dangling(s, name, false);
      assert s.(pending := RunOf(name, Ret, results)).(pending := None) == s;
    }
  }

  /** `Return` closes the frame after its result run. */
  lemma {:induction false} ExportReturn(s: Asm, n: nat, name: string, results: seq<RawValue>)
    requires Shape(s) && s.pending.None? && s.stack != [] && n < |s.crossings|
    requires Top(s) == Open(n, name)
    requires var c := s.crossings[n]; c.kind.Export? && c.results == [] && !c.hasResults
    requires results != [] ==> ParseImportLabel(name).None?
    ensures var c := s.crossings[n].(results := results, hasResults := results != []);
            Push(s.(pending := RunOf(name, Ret, results)), Return) ==
            Ok(NoteGroupBoundary(Pop(s.(crossings := s.crossings[n := c]))))
  {
    hide CloseRun;
    hide NoteGroupBoundary;
    ExportResults(s, n, name, results);
  }

  // ---- the tree ----------------------------------------------------------

  /** `s` after the crossings `cs` have come and gone. */
  function Grown(s: Asm, cs: seq<Crossing>, t: Tables, marked: bool): Asm {
    var u := s.(crossings := s.crossings + cs, functions := t.functions, varNames := t.varNames,
                sawImportMarker := s.sawImportMarker || marked);
    if s.stack == [] && cs != [] then
      u.(groupEnds := u.groupEnds + [|u.crossings|], groupStart := |u.crossings|)
    else u
  }

  lemma {:induction false} GrownQuiet(s: Asm, t: Tables, cs: seq<Crossing>, t': Tables, marked: bool)
    requires Quiet(s, t) && cs != []
    ensures Quiet(Grown(s, cs, t', marked), t')
    ensures Grown(s, cs, t', marked).stack == s.stack && Grown(s, cs, t', marked).crossings == s.crossings + cs
  {}

  lemma {:induction false} GrownNone(s: Asm, t: Tables)
    requires Idle(s, t)
    ensures Grown(s, [], t, false) == s
  {
    assert s.crossings + [] == s.crossings;
  }

  lemma {:induction false} GrownTwice(s: Asm, a: seq<Crossing>, ta: Tables, ma: bool, b: seq<Crossing>, tb: Tables, mb: bool)
    requires s.stack != []
    ensures Grown(Grown(s, a, ta, ma), b, tb, mb) == Grown(s, a + b, tb, ma || mb)
  {
    assert s.crossings + a + b == s.crossings + (a + b);
  }

  /** Closing the bracket: the opening crossing gets its results, the body stays behind it. */
  lemma {:induction false} Closed(s: Asm, c0: Crossing, c1: Crossing, tag: string, cs: seq<Crossing>, t: Tables, marked: bool)
    requires Shape(s) && s.pending.None? && (s.stack == [] ==> s.groupStart == |s.crossings|)
    ensures var u := Grown(Opened(s, c0, tag), cs, t, marked);
            && Idle(u, t) && u.stack != [] && |s.crossings| < |u.crossings|
            && Top(u) == Open(|s.crossings|, tag) && u.crossings[|s.crossings|] == c0
            && NoteGroupBoundary(Pop(u.(crossings := u.crossings[|s.crossings| := c1]))) == Grown(s, [c1] + cs, t, marked)
  {
    var u := Grown(Opened(s, c0, tag), cs, t, marked);
    assert u.crossings[|s.crossings| := c1] == s.crossings + ([c1] + cs);
    assert u.stack[..|s.stack|] == s.stack;
  }

  lemma {:induction false} GrownVarNames(s: Asm, cs: seq<Crossing>, t: Tables, t': Tables, marked: bool)
    requires t'.functions == t.functions
    ensures Grown(s, cs, t, marked).(varNames := t'.varNames) == Grown(s, cs, t', marked)
  {}

  /** When the bracket has closed, nothing is in flight. */
  lemma {:induction false} GrownSettled(s: Asm, cs: seq<Crossing>, t: Tables, marked: bool)
    requires Shape(s) && s.pending.None? && cs != []
    ensures var v := Grown(s, cs, t, marked);
            Shape(v) && v.pending.None? && (v.stack == [] ==> v.groupStart == |v.crossings|)
  {}

  lemma {:induction false} Chain3(s: Asm, a: seq<Record>, t: Asm, b: seq<Record>, u: Asm, c: seq<Record>, v: Asm)
    requires Runs(s, a, t) && Runs(t, b, u) && Runs(u, c, v)
    ensures Runs(s, a + b + c, v)
  {
    Chain(s, a, t, b, u);
    Chain(s, a + b, u, c, v);
  }

  /** The records before the body of an import: it is open, marked, with its arguments. */
  lemma {:induction false} ImportOpens(s: Asm, call: Call, t: Tables)
    requires Quiet(s, t) && Nameable(call) && call.ImportCall?
    ensures var before := Values(ImportLabel(call.index), Arg, call.args, t);
            var c0 := CrossingOf(call, |s.stack|, |s.crossings|).(results := [], hasResults := false);
            var u := Opened(s, c0, ImportLabel(call.index)).(sawImportMarker := true, varNames := before.tables.varNames);
            && Quiet(u, before.tables)
            && Runs(s, Delimiters(call.lead) + before.records + [Event(ImportEdge(call.index, true))], u)
  {
    hide Runs;
    var tag := ImportLabel(call.index);
    ImportLabelRoundTrip(call.index);
    var before := Values(tag, Arg, call.args, t);
    DelimitersRun(s, t, call.lead);
    ValuesRun(s, tag, Arg, call.args, t);
    var s1 := s.(varNames := before.tables.varNames);
    EnterImport(s1, before.tables, call.index, call.args);
    var c0 := CrossingOf(call, |s.stack|, |s.crossings|).(results := [], hasResults := false);
    var u := Opened(s, c0, tag).(sawImportMarker := true, varNames := before.tables.varNames);
    One(s1.(pending := RunOf(tag, Arg, call.args)), Event(ImportEdge(call.index, true)), u);
    Chain3(s, Delimiters(call.lead), s, before.records, s1.(pending := RunOf(tag, Arg, call.args)),
           [Event(ImportEdge(call.index, true))], u);
  }

  lemma {:induction false} OpenedMarked(s: Asm, c: Crossing, tag: string, cs: seq<Crossing>, t: Tables, marked: bool)
    requires s.sawImportMarker
    ensures var u := Grown(Opened(s, c, tag), cs, t, marked); u.(sawImportMarker := true) == u
  {}

  /** The records after the body of an import: its results are filled in and it is closed. */
  lemma {:induction false} ImportCloses(s: Asm, call: Call, cs: seq<Crossing>, t: Tables, marked: bool)
    requires Shape(s) && s.pending.None? && (s.stack == [] ==> s.groupStart == |s.crossings|)
    requires Nameable(call) && call.ImportCall? && s.sawImportMarker
    ensures var tag, n := ImportLabel(call.index), |s.crossings|;
            var c1 := CrossingOf(call, |s.stack|, n);
            var u := Grown(Opened(s, c1.(results := [], hasResults := false), tag), cs, t, marked);
            var after := Values(tag, Ret, call.results, t);
            Runs(u, after.records + [Event(ImportEdge(call.index, false))], Grown(s, [c1] + cs, after.tables, marked))
  {
    hide Runs;
    hide Push;
    hide Grown;
    hide Values;
    hide Opened;
    hide NoteGroupBoundary;
    var tag, n := ImportLabel(call.index), |s.crossings|;
    ImportLabelRoundTrip(call.index);
    hide ImportLabel;
    hide ParseImportLabel;
    var c1 := CrossingOf(call, |s.stack|, n);
    var c0 := c1.(results := [], hasResults := false);
    var after := Values(tag, Ret, call.results, t);
    var u := Grown(Opened(s, c0, tag), cs, t, marked);
    Closed(s, c0, c1, tag, cs, t, marked);
    ValuesRun(u, tag, Ret, call.results, t);
    Closed(s, c0, c1, tag, cs, after.tables, marked);
    var u1 := u.(varNames := after.tables.varNames);
    GrownVarNames(Opened(s, c0, tag), cs, t, after.tables, marked);
    OpenedMarked(s, c0, tag, cs, after.tables, marked);
    LeaveImport(u1, n, call.index, call.results);
    One(u1.(pending := RunOf(tag, Ret, call.results)), Event(ImportEdge(call.index, false)),
        Grown(s, [c1] + cs, after.tables, marked));
    Chain(u, after.records, u1.(pending := RunOf(tag, Ret, call.results)), [Event(ImportEdge(call.index, false))],
          Grown(s, [c1] + cs, after.tables, marked));
  }

  /** An import's records, as they come before its body, in it and after it. */
  lemma {:induction false} ImportRendered(call: Call, t: Tables)
    requires call.ImportCall?
    ensures var tag := ImportLabel(call.index);
            var before := Values(tag, Arg, call.args, t);
            var inside := RenderForest(call.body, before.tables);
            var after := Values(tag, Ret, call.results, inside.tables);
            Render(call, t) ==
            Out((Delimiters(call.lead) + before.records + [Event(ImportEdge(call.index, true))]) + inside.records
                + (after.records + [Event(ImportEdge(call.index, false))]), after.tables)
  {
    hide Values;
    hide RenderForest;
    hide Delimiters;
    var tag := ImportLabel(call.index);
    var before := Values(tag, Arg, call.args, t);
    var inside := RenderForest(call.body, before.tables);
    var after := Values(tag, Ret, call.results, inside.tables);
    Regroup2(Delimiters(call.lead) + before.records + [Event(ImportEdge(call.index, true))], inside.records,
             after.records, [Event(ImportEdge(call.index, false))]);
  }

  lemma {:induction false} Regroup2(a: seq<Record>, b: seq<Record>, c: seq<Record>, d: seq<Record>)
    ensures a + b + c + d == a + b + (c + d)
  {}

  /** What `Grown` makes of the tables and of the witness does not depend on what they were. */
  lemma {:induction false} GrownTables(s: Asm, functions: seq<string>, varNames: seq<string>, cs: seq<Crossing>, t: Tables, marked: bool)
    ensures Grown(s.(functions := functions, varNames := varNames), cs, t, marked) == Grown(s, cs, t, marked)
    ensures Grown(s.(sawImportMarker := true), cs, t, marked) == Grown(s, cs, t, true)
  {}

  lemma {:induction false} ImportRun(s: Asm, call: Call, t: Tables)
    requires Quiet(s, t) && Renderable(call) && call.ImportCall?
    ensures var out := Render(call, t);
            Runs(s, out.records, Grown(s, Producer.Preorder(call, |s.stack|, |s.crossings|), out.tables, HasImport(call)))
    decreases call, 0
  {
    hide Runs;
    hide Render;
    hide RenderForest;
    hide Grown;
    hide Values;
    hide Delimiters;
    hide PreorderForest;
    hide CrossingOf;
    hide ImportLabel;
    var tag := ImportLabel(call.index);
    var before := Values(tag, Arg, call.args, t);
    var inside := RenderForest(call.body, before.tables);
    var after := Values(tag, Ret, call.results, inside.tables);
    var opening := Delimiters(call.lead) + before.records + [Event(ImportEdge(call.index, true))];
    var closing := after.records + [Event(ImportEdge(call.index, false))];
    ImportOpens(s, call, t);
    var c1 := CrossingOf(call, |s.stack|, |s.crossings|);
    var s1 := s.(sawImportMarker := true);
    var u := Opened(s, c1.(results := [], hasResults := false), tag).(sawImportMarker := true, varNames := before.tables.varNames);
    BodyRun(u, call.body, before.tables);
    var cs := PreorderForest(call.body, |s.stack| + 1, |s.crossings| + 1);
    var o := Opened(s, c1.(results := [], hasResults := false), tag);
    GrownTables(o.(sawImportMarker := true), s.functions, before.tables.varNames, cs, inside.tables, HasImportForest(call.body));
    GrownTables(o, s.functions, s.varNames, cs, inside.tables, HasImportForest(call.body));
    GrownTables(o, s.functions, s.varNames, cs, inside.tables, true);
    GrownTables(s, s.functions, s.varNames, [c1] + cs, after.tables, true);
    ImportCloses(s1, call, cs, inside.tables, true);
    Chain3(s, opening, u, inside.records, Grown(o, cs, inside.tables, true), closing, Grown(s, [c1] + cs, after.tables, true));
    ImportRendered(call, t);
  }

  lemma {:induction false} FunctionStep(s: Asm, t: Tables, name: string)
    requires Idle(s, t)
    ensures Runs(s, Naming(name, t), s.(functions := Intern(t.functions, name)))
  {
    if IndexOf(t.functions, name) == |t.functions| {
      One(s, Function(name), s.(functions := Intern(t.functions, name)));
    } else {
      Still(s);
    }
  }

  lemma {:induction false} CallStep(s: Asm, id: nat, name: string)
    requires Shape(s) && s.pending.None? && id < |s.functions| && s.functions[id] == name
    ensures Runs(s, [Record.Call(id)], Opened(s, Fresh(s, Export).(name := name), name))
  {
    One(s, Record.Call(id), Opened(s, Fresh(s, Export).(name := name), name));
  }

  /** The records before the body of an export: its frame is open with its arguments. */
  lemma {:induction false} ExportOpens(s: Asm, call: Call, t: Tables)
    requires Idle(s, t) && Nameable(call) && call.ExportCall?
    ensures var before := Values(call.name, Arg, call.args, t.(functions := Intern(t.functions, call.name)));
            var c0 := CrossingOf(call, |s.stack|, |s.crossings|).(results := [], hasResults := false);
            var u := Opened(s, c0, call.name).(functions := before.tables.functions, varNames := before.tables.varNames);
            && Quiet(u, before.tables)
            && Runs(s, Delimiters(call.lead + 1) + Naming(call.name, t) + [Record.Call(IndexOf(t.functions, call.name))]
                       + before.records + [Event(ExportEdge)], u)
  {
    hide Push;
    hide Intern;
    hide Runs;
    var t0 := t.(functions := Intern(t.functions, call.name));
    var before := Values(call.name, Arg, call.args, t0);
    var n := |s.crossings|;
    DelimitersRun(s, t, call.lead + 1);
    var s1 := s.(functions := t0.functions);
    FunctionStep(s, t, call.name);
    var c := CrossingOf(call, |s.stack|, n).(args := [], results := [], hasResults := false);
    var s2 := Opened(s1, c, call.name);
    CallStep(s1, IndexOf(t.functions, call.name), call.name);
    Chain3(s, Delimiters(call.lead + 1), s, Naming(call.name, t), s1, [Record.Call(IndexOf(t.functions, call.name))], s2);
    ValuesRun(s2, call.name, Arg, call.args, t0);
    var s3 := s2.(varNames := before.tables.varNames);
    ExportArguments(s3, n, call.name, call.args);
    var u := Opened(s, c.(args := call.args), call.name).(functions := before.tables.functions, varNames := before.tables.varNames);
    assert s3.crossings[n := s3.crossings[n].(args := call.args)] == u.crossings;
    One(s3.(pending := RunOf(call.name, Arg, call.args)), Event(ExportEdge), u);
    Chain3(s, Delimiters(call.lead + 1) + Naming(call.name, t) + [Record.Call(IndexOf(t.functions, call.name))], s2,
           before.records, s3.(pending := RunOf(call.name, Arg, call.args)), [Event(ExportEdge)], u);
  }

  lemma {:induction false} QuietMarker(v: Asm)
    requires Shape(v) && v.pending.None? && (v.stack == [] ==> v.groupStart == |v.crossings|)
    ensures Runs(v, [Event(ExportEdge)], v)
  {
    One(v, Event(ExportEdge), v);
  }

  /** The records after the body of an export: results, `Return`, and the closing marker. */
  lemma {:induction false} ExportCloses(s: Asm, call: Call, cs: seq<Crossing>, t: Tables, marked: bool)
    requires Shape(s) && s.pending.None? && (s.stack == [] ==> s.groupStart == |s.crossings|)
    requires Nameable(call) && call.ExportCall?
    ensures var n := |s.crossings|;
            var c1 := CrossingOf(call, |s.stack|, n);
            var u := Grown(Opened(s, c1.(results := [], hasResults := false), call.name), cs, t, marked);
            var after := Values(call.name, Ret, call.results, t);
            Runs(u, after.records + [Return] + [Event(ExportEdge)], Grown(s, [c1] + cs, after.tables, marked))
  {
    hide Runs;
    hide Push;
    hide Grown;
    hide Values;
    hide Opened;
    hide NoteGroupBoundary;
    hide ParseImportLabel;
    var n := |s.crossings|;
    var c1 := CrossingOf(call, |s.stack|, n);
    var c0 := c1.(results := [], hasResults := false);
    var after := Values(call.name, Ret, call.results, t);
    var u := Grown(Opened(s, c0, call.name), cs, t, marked);
    Closed(s, c0, c1, call.name, cs, t, marked);
    ValuesRun(u, call.name, Ret, call.results, t);
    Closed(s, c0, c1, call.name, cs, after.tables, marked);
    var u1 := u.(varNames := after.tables.varNames);
    GrownVarNames(Opened(s, c0, call.name), cs, t, after.tables, marked);
    ExportReturn(u1, n, call.name, call.results);
    var v := Grown(s, [c1] + cs, after.tables, marked);
    GrownSettled(s, [c1] + cs, after.tables, marked);
    One(u1.(pending := RunOf(call.name, Ret, call.results)), Return, v);
    QuietMarker(v);
    Chain3(u, after.records, u1.(pending := RunOf(call.name, Ret, call.results)), [Return], v, [Event(ExportEdge)], v);
  }

  /** An export's records, as they come before its body, in it and after it. */
  lemma {:induction false} ExportRendered(call: Call, t: Tables)
    requires call.ExportCall?
    ensures var before := Values(call.name, Arg, call.args, t.(functions := Intern(t.functions, call.name)));
            var inside := RenderForest(call.body, before.tables);
            var after := Values(call.name, Ret, call.results, inside.tables);
            Render(call, t) ==
            Out((Delimiters(call.lead + 1) + Naming(call.name, t) + [Record.Call(IndexOf(t.functions, call.name))]
                 + before.records + [Event(ExportEdge)]) + inside.records
                + (after.records + [Return] + [Event(ExportEdge)]), after.tables)
  {
    hide Values;
    hide RenderForest;
    hide Delimiters;
    hide Naming;
    hide IndexOf;
    var before := Values(call.name, Arg, call.args, t.(functions := Intern(t.functions, call.name)));
    var inside := RenderForest(call.body, before.tables);
    var after := Values(call.name, Ret, call.results, inside.tables);
    var opening := Delimiters(call.lead + 1) + Naming(call.name, t) + [Record.Call(IndexOf(t.functions, call.name))]
                   + before.records + [Event(ExportEdge)];
    Regroup2(opening, inside.records, after.records, [Return]);
    Regroup2(opening, inside.records, after.records + [Return], [Event(ExportEdge)]);
  }

  lemma {:induction false} ExportRun(s: Asm, call: Call, t: Tables)
    requires Quiet(s, t) && Renderable(call) && call.ExportCall?
    ensures var out := Render(call, t);
            Runs(s, out.records, Grown(s, Producer.Preorder(call, |s.stack|, |s.crossings|), out.tables, HasImport(call)))
    decreases call, 0
  {
    hide Runs;
    hide Render;
    hide RenderForest;
    hide Grown;
    hide Values;
    hide Delimiters;
    hide Naming;
    hide IndexOf;
    hide Intern;
    hide PreorderForest;
    hide CrossingOf;
    var before := Values(call.name, Arg, call.args, t.(functions := Intern(t.functions, call.name)));
    var inside := RenderForest(call.body, before.tables);
    var after := Values(call.name, Ret, call.results, inside.tables);
    var opening := Delimiters(call.lead + 1) + Naming(call.name, t) + [Record.Call(IndexOf(t.functions, call.name))]
                   + before.records + [Event(ExportEdge)];
    var closing := after.records + [Return] + [Event(ExportEdge)];
    ExportOpens(s, call, t);
    var c1 := CrossingOf(call, |s.stack|, |s.crossings|);
    var c0 := c1.(results := [], hasResults := false);
    var u := Opened(s, c0, call.name).(functions := before.tables.functions, varNames := before.tables.varNames);
    BodyRun(u, call.body, before.tables);
    var cs := PreorderForest(call.body, |s.stack| + 1, |s.crossings| + 1);
    var v := Grown(Opened(s, c0, call.name), cs, inside.tables, HasImportForest(call.body));
    GrownTables(Opened(s, c0, call.name), before.tables.functions, before.tables.varNames, cs, inside.tables, HasImportForest(call.body));
    ExportCloses(s, call, cs, inside.tables, HasImportForest(call.body));
    Chain3(s, opening, u, inside.records, v, closing, Grown(s, [c1] + cs, after.tables, HasImportForest(call.body)));
    ExportRendered(call, t);
  }

  /** Inside an open crossing a forest leaves exactly its preorder behind. */
  lemma {:induction false} BodyRun(s: Asm, f: Forest, t: Tables)
    requires Quiet(s, t) && RenderableForest(f) && s.stack != []
    ensures var out := RenderForest(f, t);
            Runs(s, out.records, Grown(s, PreorderForest(f, |s.stack|, |s.crossings|), out.tables, HasImportForest(f)))
    decreases f, 0
  {
    hide Render;
    hide Grown;
    hide Runs;
    if f.Nil? {
      GrownNone(s, t);
      Still(s);
    } else {
      var out := Render(f.head, t);
      if f.head.ExportCall? { ExportRun(s, f.head, t); } else { ImportRun(s, f.head, t); }
      var first := Producer.Preorder(f.head, |s.stack|, |s.crossings|);
      var u := Grown(s, first, out.tables, HasImport(f.head));
      GrownQuiet(s, t, first, out.tables, HasImport(f.head));
      BodyRun(u, f.tail, out.tables);
      var rest := RenderForest(f.tail, out.tables);
      var tail := PreorderForest(f.tail, |s.stack|, |s.crossings| + |first|);
      GrownTwice(s, first, out.tables, HasImport(f.head), tail, rest.tables, HasImportForest(f.tail));
      Chain(s, out.records, u, rest.records, Grown(u, tail, rest.tables, HasImportForest(f.tail)));
    }
  }

  /** The end of each root's crossings: one call group per root. */
  function RootEnds(f: Forest, seqNo: nat): seq<nat>
    decreases f
  {
    match f
    case Nil => []
    case Cons(call, rest) =>
      var end := seqNo + |Producer.Preorder(call, 0, seqNo)|;
      [end] + RootEnds(rest, end)
  }

  /** `s` after the roots of `f` have come and gone, each in its own group. */
  function Session(s: Asm, f: Forest, t: Tables): Asm {
    var cs := s.crossings + PreorderForest(f, 0, |s.crossings|);
    Asm(t.functions, t.varNames, cs, [], None, |cs|, s.groupEnds + RootEnds(f, |s.crossings|),
        s.sawImportMarker || HasImportForest(f))
  }

  lemma {:induction false} SessionRun(s: Asm, f: Forest, t: Tables)
    requires Quiet(s, t) && RenderableForest(f) && s.stack == []
    ensures var out := RenderForest(f, t); Runs(s, out.records, Session(s, f, out.tables))
    decreases f
  {
    hide Runs;
    if f.Nil? {
      assert s.crossings + [] == s.crossings && s.groupEnds + [] == s.groupEnds;
      Still(s);
    } else {
      var out := Render(f.head, t);
      if f.head.ExportCall? { ExportRun(s, f.head, t); } else { ImportRun(s, f.head, t); }
      var first := Producer.Preorder(f.head, 0, |s.crossings|);
      var u := Grown(s, first, out.tables, HasImport(f.head));
      GrownQuiet(s, t, first, out.tables, HasImport(f.head));
      SessionRun(u, f.tail, out.tables);
      var rest := RenderForest(f.tail, out.tables);
      SessionCons(s, f, u, first, rest.tables);
      Chain(s, out.records, u, rest.records, Session(u, f.tail, rest.tables));
    }
  }

  lemma {:induction false} SessionCons(s: Asm, f: Forest, u: Asm, first: seq<Crossing>, t: Tables)
    requires f.Cons? && s.stack == [] && s.pending.None? && first == Producer.Preorder(f.head, 0, |s.crossings|)
    requires u.crossings == s.crossings + first && u.groupEnds == s.groupEnds + [|u.crossings|]
    requires u.sawImportMarker == (s.sawImportMarker || HasImport(f.head))
    ensures Session(u, f.tail, t) == Session(s, f, t)
  {
    assert s.crossings + PreorderForest(f, 0, |s.crossings|) == u.crossings + PreorderForest(f.tail, 0, |u.crossings|);
    assert s.groupEnds + RootEnds(f, |s.crossings|) == u.groupEnds + RootEnds(f.tail, |u.crossings|);
  }

  /** Parser undoes printer, current format: the crossings recovered from a recording are
      the preorder of what was recorded, with arguments, results and depths; every root is
      one call group; and the format witness is set exactly when an import was called. */
  lemma {:induction false} ReconstructUndoesRecording(f: Forest)
    requires RenderableForest(f)
    ensures var r := Reconstruct(Recording(f));
            && r.Ok?
            && r.value.crossings == PreorderForest(f, 0, 0)
            && r.value.groupEnds == RootEnds(f, 0)
            && r.value.sawImportMarker == HasImportForest(f)
  {
    var out := RenderForest(f, Tables([], []));
    SessionRun(EMPTY, f, Tables([], []));
    var s := Session(EMPTY, f, out.tables);
    assert PushAll(EMPTY, Recording(f)) == Ok(s);
    assert [] + PreorderForest(f, 0, 0) == PreorderForest(f, 0, 0);
    assert [] + RootEnds(f, 0) == RootEnds(f, 0);
  }
}
