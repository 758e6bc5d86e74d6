/** The assembler: a stack machine that recovers the tree of boundary crossings from flat
    trace records (internal/boundarylog/assembler.go).

    `AssemblerSpec` gives its transitions as functions on a state value, which the proofs in
    the other modules speak about. `Assembler` is the mutable object; each method is proved
    to take the transition of the same name. */
module AssemblerSpec {
  import opened Wrappers
  import opened Labels
  import opened Crossings

  /** A value run in flight: consecutive `Value` records of one (label, role). */
  datatype Run = Run(tag: string, role: Role, values: seq<RawValue>)

  /** A crossing whose start has been seen and whose end has not. */
  datatype Open = Open(idx: nat, tag: string)

  datatype Asm = Asm(
    functions: seq<string>,
    varNames: seq<string>,
    crossings: seq<Crossing>,
    stack: seq<Open>,
    pending: Option<Run>,
    groupStart: nat,
    groupEnds: seq<nat>,
    sawImportMarker: bool)

  const EMPTY := Asm([], [], [], [], None, 0, [], false)

  predicate Shape(s: Asm) {
    forall k :: 0 <= k < |s.stack| ==> s.stack[k].idx < |s.crossings|
  }

  function Top(s: Asm): Open
    requires s.stack != []
  {
    s.stack[|s.stack| - 1]
  }

  function TopCrossing(s: Asm): Crossing
    requires Shape(s) && s.stack != []
  {
    s.crossings[Top(s).idx]
  }

  function Pop(s: Asm): (r: Asm)
    requires Shape(s) && s.stack != []
    ensures Shape(r)
  {
    s.(stack := s.stack[..|s.stack| - 1])
  }

  function UpdateTop(s: Asm, c: Crossing): (r: Asm)
    requires Shape(s) && s.stack != []
    ensures Shape(r)
  {
    s.(crossings := s.crossings[Top(s).idx := c])
  }

  /** A crossing at the next sequence number and the current depth. */
  function Fresh(s: Asm, kind: Kind): Crossing {
    Crossing(|s.crossings|, |s.stack|, kind, "", 0, [], [], false, false)
  }

  function Append(s: Asm, c: Crossing): (r: Asm)
    requires Shape(s)
    ensures Shape(r)
  {
    s.(crossings := s.crossings + [c])
  }

  function OpenCrossing(s: Asm, c: Crossing, tag: string): (r: Asm)
    requires Shape(s)
    ensures Shape(r)
  {
    s.(crossings := s.crossings + [c], stack := s.stack + [Open(|s.crossings|, tag)])
  }

  /** The top crossing is an import that nothing but its own result run or marker keeps open. */
  predicate Dangling(s: Asm, keep: string, force: bool)
    requires Shape(s)
  {
    s.stack != [] && TopCrossing(s).kind.Import? && Top(s).tag != keep &&
    (force || !TopCrossing(s).marked)
  }

  function CloseDanglingImports(s: Asm, keep: string, force: bool): (r: Asm)
    requires Shape(s)
    ensures Shape(r)
    ensures r == s.(stack := r.stack) && r.stack <= s.stack
    ensures !Dangling(r, keep, force)
    decreases |s.stack|
  {
    if Dangling(s, keep, force) then CloseDanglingImports(Pop(s), keep, force) else s
  }

  lemma {:induction false} OneDangling(s: Asm, keep: string, force: bool)
    requires Shape(s)
    ensures CloseDanglingImports(s, keep, force) ==
            if Dangling(s, keep, force) then CloseDanglingImports(Pop(s), keep, force) else s
  {}

  function CloseRun(s: Asm): (r: Result<Asm>)
    requires Shape(s)
    ensures r.Ok? ==> Shape(r.value) && r.value.pending.None?
  {
    match s.pending
    case None => Ok(s)
    case Some(run) =>
      var keep := if run.role.Ret? then run.tag else "";
      ApplyRun(CloseDanglingImports(s.(pending := None), keep, false), run)
  }

  function ApplyRun(s: Asm, run: Run): (r: Result<Asm>)
    requires Shape(s)
    ensures r.Ok? ==> Shape(r.value) && r.value.pending == s.pending
  {
    var imported := ParseImportLabel(run.tag);
    if run.role.Arg? then
      if imported.Some? then
        Ok(OpenCrossing(s, Fresh(s, Import).(index := imported.value, args := run.values), run.tag))
      else if s.stack == [] || Top(s).tag != run.tag then Err
      else Ok(UpdateTop(s, TopCrossing(s).(args := run.values)))
    else if s.stack != [] && Top(s).tag == run.tag then
      var filled := UpdateTop(s, TopCrossing(s).(results := run.values, hasResults := true));
      Ok(if imported.Some? && !TopCrossing(s).marked then Pop(filled) else filled)
    else if imported.Some? then
      Ok(Append(s, Fresh(s, Import).(index := imported.value, results := run.values, hasResults := true)))
    else Err
  }

  function OpenMarkedImport(s: Asm, index: uint32): (r: Asm)
    requires Shape(s)
    ensures Shape(r)
  {
    if s.stack != [] && TopCrossing(s).kind.Import? && TopCrossing(s).index == index && !TopCrossing(s).marked then
      UpdateTop(s, TopCrossing(s).(marked := true))
    else
      OpenCrossing(s, Fresh(s, Import).(index := index, marked := true), ImportLabel(index))
  }

  function CloseMarkedImport(s: Asm, index: uint32): (r: Result<Asm>)
    requires Shape(s)
    ensures r.Ok? ==> Shape(r.value)
  {
    if s.stack != [] && TopCrossing(s).kind.Import? && TopCrossing(s).index == index && TopCrossing(s).marked then
      Ok(Pop(s))
    else Err
  }

  function PushEvent(s: Asm, marker: Marker): (r: Result<Asm>)
    requires Shape(s)
    ensures r.Ok? ==> Shape(r.value)
  {
    match CloseRun(s)
    case Err => Err
    case Ok(t) =>
      match marker
      case HostRecord(accepted) => if accepted then Ok(t) else Err
      case ImportEdge(index, enter) =>
        var u := t.(sawImportMarker := true);
        if enter then Ok(OpenMarkedImport(u, index)) else CloseMarkedImport(u, index)
      case _ => Ok(t)
  }

  /** Whether a value at (tag, role, slot) starts a new run instead of continuing `run`. */
  predicate StartsRun(run: Run, b: Binding) {
    run.tag != b.tag || run.role != b.role || (b.slot == 0 && run.values != [])
  }

  function PushValue(s: Asm, variableId: nat, value: Option<RawValue>): (r: Result<Asm>)
    requires Shape(s)
    ensures r.Ok? ==> Shape(r.value)
  {
    if variableId >= |s.varNames| then Err
    else
      match ParseBindingName(s.varNames[variableId])
      case None => CloseRun(s)
      case Some(b) =>
        if value.None? then Err
        else
          match if s.pending.Some? && StartsRun(s.pending.value, b) then CloseRun(s) else Ok(s)
          case Err => Err
          case Ok(t) => AppendValue(t, b, value.value)
  }

  function AppendValue(s: Asm, b: Binding, v: RawValue): (r: Result<Asm>)
    requires Shape(s)
    ensures r.Ok? ==> Shape(r.value)
  {
    var run := if s.pending.Some? then s.pending.value else Run(b.tag, b.role, []);
    if b.slot != |run.values| then Err
    else Ok(s.(pending := Some(run.(values := run.values + [v]))))
  }

  function NoteGroupBoundary(s: Asm): (r: Asm)
    requires Shape(s)
    ensures Shape(r)
  {
    if s.stack == [] && s.pending.None? && |s.crossings| > s.groupStart then
      s.(groupEnds := s.groupEnds + [|s.crossings|], groupStart := |s.crossings|)
    else s
  }

  function PushCall(s: Asm, id: nat): (r: Result<Asm>)
    requires Shape(s)
    ensures r.Ok? ==> Shape(r.value)
  {
    if id >= |s.functions| then Err
    else Ok(OpenCrossing(s, Fresh(s, Export).(name := s.functions[id]), s.functions[id]))
  }

  function PushReturn(s: Asm): (r: Result<Asm>)
    requires Shape(s)
    ensures r.Ok? ==> Shape(r.value)
  {
    var t := CloseDanglingImports(s, "", false);
    if t.stack == [] || !TopCrossing(t).kind.Export? then Err else Ok(Pop(t))
  }

  /** The effect of one record before group boundaries are noted. */
  function Transition(s: Asm, ev: Record): (r: Result<Asm>)
    requires Shape(s)
    ensures r.Ok? ==> Shape(r.value)
  {
    match ev
    case VariableName(name) => Ok(s.(varNames := s.varNames + [name]))
    case Value(id, value) => PushValue(s, id, value)
    case Event(marker) => PushEvent(s, marker)
    case Unknown => Ok(s)
    case Delimiter => CloseRun(s)
    case Function(name) =>
      (match CloseRun(s) case Err => Err case Ok(t) => Ok(t.(functions := t.functions + [name])))
    case Call(id) => (match CloseRun(s) case Err => Err case Ok(t) => PushCall(t, id))
    case Return => (match CloseRun(s) case Err => Err case Ok(t) => PushReturn(t))
  }

  function Push(s: Asm, ev: Record): (r: Result<Asm>)
    requires Shape(s)
    ensures r.Ok? ==> Shape(r.value)
  {
    match Transition(s, ev)
    case Err => Err
    case Ok(t) => Ok(NoteGroupBoundary(t))
  }

  function PushAll(s: Asm, evs: seq<Record>): (r: Result<Asm>)
    requires Shape(s)
    ensures r.Ok? ==> Shape(r.value)
    decreases |evs|
  {
    if evs == [] then Ok(s)
    else
      match Push(s, evs[0])
      case Err => Err
      case Ok(t) => PushAll(t, evs[1..])
  }

  function Finish(s: Asm): (r: Result<Asm>)
    requires Shape(s)
    ensures r.Ok? ==> Shape(r.value) && r.value.stack == [] && r.value.pending.None?
  {
    match CloseRun(s)
    case Err => Err
    case Ok(t) =>
      var u := CloseDanglingImports(t, "", true);
      if u.stack != [] then Err else Ok(NoteGroupBoundary(u))
  }

  /** reconstructCrossings: the batch loop over `push`, then `finish`. */
  function Reconstruct(evs: seq<Record>): (r: Result<Asm>)
    ensures r.Ok? ==> Shape(r.value)
  {
    match PushAll(EMPTY, evs)
    case Err => Err
    case Ok(s) => Finish(s)
  }

  lemma {:induction false} PushAllAppend(s: Asm, a: seq<Record>, b: seq<Record>)
    requires Shape(s)
    ensures PushAll(s, a + b) ==
            match PushAll(s, a) case Err => Err case Ok(t) => PushAll(t, b)
    decreases |a|
  {
    if a == [] {
      assert a + b == b;
    } else {
      assert (a + b)[1..] == a[1..] + b;
      match Push(s, a[0])
      case Err =>
      case Ok(t) => PushAllAppend(t, a[1..], b);
    }
  }

  lemma {:induction false} LastPush(evs: seq<Record>)
    requires evs != []
    ensures PushAll(EMPTY, evs) ==
            match PushAll(EMPTY, evs[..|evs| - 1])
            case Err => Err
            case Ok(s) => Push(s, evs[|evs| - 1])
  {
    var front, last := evs[..|evs| - 1], evs[|evs| - 1];
    assert evs == front + [last];
    PushAllAppend(EMPTY, front, [last]);
    if PushAll(EMPTY, front).Ok? {
      var s := PushAll(EMPTY, front).value;
      assert [last][1..] == [];
      if Push(s, last).Ok? { assert PushAll(Push(s, last).value, []) == Push(s, last); }
    }
  }
}
