/** The assembler as an object whose methods update its fields (internal/boundarylog/assembler.go:34-459);
    each leaves the state the specification gives. */
module Assembler {
  import opened Wrappers
  import opened Labels
  import opened Crossings
  import opened AssemblerSpec

  class Assembler {
    var functions: seq<string>
    var varNames: seq<string>
    var crossings: seq<Crossing>
    var stack: seq<Open>
    var pending: Option<Run>
    var groupStart: nat
    var groupEnds: seq<nat>
    var sawImportMarker: bool

    ghost function View(): Asm
      reads this
    {
      Asm(functions, varNames, crossings, stack, pending, groupStart, groupEnds, sawImportMarker)
    }

    ghost predicate Valid()
      reads this
    {
      Shape(View())
    }

    constructor ()
      ensures Valid() && View() == EMPTY
    {
      functions, varNames, crossings, stack := [], [], [], [];
      pending, groupStart, groupEnds, sawImportMarker := None, 0, [], false;
    }

    method CloseDanglingImports(keep: string, force: bool)
      requires Valid()
      modifies this`stack
      ensures Valid() && View() == AssemblerSpec.CloseDanglingImports(old(View()), keep, force)
    {
      hide AssemblerSpec.CloseDanglingImports;
      while |stack| > 0
        invariant Valid()
        invariant AssemblerSpec.CloseDanglingImports(View(), keep, force) ==
                  AssemblerSpec.CloseDanglingImports(old(View()), keep, force)
        decreases |stack|
      {
        OneDangling(View(), keep, force);
        var top := stack[|stack| - 1];
        var c := crossings[top.idx];
        if c.kind != Import { return; }
        if top.tag == keep { return; }
        if c.marked && !force { return; }
        stack := stack[..|stack| - 1];
      }
      OneDangling(View(), keep, force);
    }

    method CloseRun() returns (ok: bool)
      requires Valid()
      modifies this`pending, this`crossings, this`stack
      ensures Valid()
      ensures ok == AssemblerSpec.CloseRun(old(View())).Ok?
      ensures ok ==> View() == AssemblerSpec.CloseRun(old(View())).value
    {
      if pending.None? { return true; }
      var run := pending.value;
      pending := None;
      CloseDanglingImports(if run.role == Ret then run.tag else "", false);
      ok := ApplyRun(run);
    }

    method ApplyRun(run: Run) returns (ok: bool)
      requires Valid()
      modifies this`crossings, this`stack
      ensures Valid()
      ensures ok == AssemblerSpec.ApplyRun(old(View()), run).Ok?
      ensures ok ==> View() == AssemblerSpec.ApplyRun(old(View()), run).value
    {
      var imported := ParseImportLabel(run.tag);
      if run.role == Arg {
        if imported.Some? {
          var c := Crossing(|crossings|, |stack|, Import, "", imported.value, run.values, [], false, false);
          crossings := crossings + [c];
          stack := stack + [Open(|crossings| - 1, run.tag)];
          return true;
        }
        if |stack| == 0 || stack[|stack| - 1].tag != run.tag { return false; }
        var idx := stack[|stack| - 1].idx;
        crossings := crossings[idx := crossings[idx].(args := run.values)];
        return true;
      }
      if |stack| > 0 && stack[|stack| - 1].tag == run.tag {
        var idx := stack[|stack| - 1].idx;
        crossings := crossings[idx := crossings[idx].(results := run.values, hasResults := true)];
        if imported.Some? && !crossings[idx].marked {
          stack := stack[..|stack| - 1];
        }
        return true;
      }
      if imported.Some? {
        var c := Crossing(|crossings|, |stack|, Import, "", imported.value, [], run.values, true, false);
        crossings := crossings + [c];
        return true;
      }
      return false;
    }

    method OpenMarkedImport(index: uint32)
      requires Valid()
      modifies this`crossings, this`stack
      ensures Valid() && View() == AssemblerSpec.OpenMarkedImport(old(View()), index)
    {
      var n := |stack|;
      if n > 0 {
        var idx := stack[n - 1].idx;
        var c := crossings[idx];
        if c.kind == Import && c.index == index && !c.marked {
          crossings := crossings[idx := c.(marked := true)];
          return;
        }
      }
      crossings := crossings + [Crossing(|crossings|, n, Import, "", index, [], [], false, true)];
      stack := stack + [Open(|crossings| - 1, ImportLabel(index))];
    }

    method CloseMarkedImport(index: uint32) returns (ok: bool)
      requires Valid()
      modifies this`stack
      ensures Valid()
      ensures ok == AssemblerSpec.CloseMarkedImport(old(View()), index).Ok?
      ensures ok ==> View() == AssemblerSpec.CloseMarkedImport(old(View()), index).value
    {
      var n := |stack|;
      if n > 0 {
        var c := crossings[stack[n - 1].idx];
        if c.kind == Import && c.index == index && c.marked {
          stack := stack[..n - 1];
          return true;
        }
      }
      return false;
    }

    method PushEvent(marker: Marker) returns (ok: bool)
      requires Valid()
      modifies this
      ensures Valid()
      ensures ok == AssemblerSpec.PushEvent(old(View()), marker).Ok?
      ensures ok ==> View() == AssemblerSpec.PushEvent(old(View()), marker).value
    {
      ok := CloseRun();
      if !ok { return; }
      match marker {
        case HostRecord(accepted) => return accepted;
        case ImportEdge(index, enter) =>
          sawImportMarker := true;
          if enter {
            OpenMarkedImport(index);
          } else {
            ok := CloseMarkedImport(index);
          }
        case _ =>
      }
    }

    method PushValue(variableId: nat, value: Option<RawValue>) returns (ok: bool)
      requires Valid()
      modifies this`pending, this`crossings, this`stack
      ensures Valid()
      ensures ok == AssemblerSpec.PushValue(old(View()), variableId, value).Ok?
      ensures ok ==> View() == AssemblerSpec.PushValue(old(View()), variableId, value).value
    {
      if variableId >= |varNames| { return false; }
      var parsed := ParseBindingName(varNames[variableId]);
      if parsed.None? {
        ok := CloseRun();
        return;
      }
      var b := parsed.value;
      if value.None? { return false; }
      if pending.Some? &&
         (pending.value.tag != b.tag || pending.value.role != b.role ||
          (b.slot == 0 && |pending.value.values| > 0)) {
        ok := CloseRun();
        if !ok { return; }
      }
      if pending.None? {
        pending := Some(Run(b.tag, b.role, []));
      }
      if b.slot != |pending.value.values| { return false; }
      pending := Some(pending.value.(values := pending.value.values + [value.value]));
      return true;
    }

    method NoteGroupBoundary()
      requires Valid()
      modifies this`groupEnds, this`groupStart
      ensures Valid() && View() == AssemblerSpec.NoteGroupBoundary(old(View()))
    {
      if |stack| != 0 || pending.Some? { return; }
      if |crossings| <= groupStart { return; }
      groupEnds := groupEnds + [|crossings|];
      groupStart := |crossings|;
    }

    method PushCall(id: nat) returns (ok: bool)
      requires Valid()
      modifies this`crossings, this`stack
      ensures Valid()
      ensures ok == AssemblerSpec.PushCall(old(View()), id).Ok?
      ensures ok ==> View() == AssemblerSpec.PushCall(old(View()), id).value
    {
      if id >= |functions| { return false; }
      crossings := crossings + [Crossing(|crossings|, |stack|, Export, functions[id], 0, [], [], false, false)];
      stack := stack + [Open(|crossings| - 1, functions[id])];
      return true;
    }

    method PushReturn() returns (ok: bool)
      requires Valid()
      modifies this`stack
      ensures Valid()
      ensures ok == AssemblerSpec.PushReturn(old(View())).Ok?
      ensures ok ==> View() == AssemblerSpec.PushReturn(old(View())).value
    {
      CloseDanglingImports("", false);
      if |stack| == 0 { return false; }
      if crossings[stack[|stack| - 1].idx].kind != Export { return false; }
      stack := stack[..|stack| - 1];
      return true;
    }

    /** Feeds one decoded record. */
    method Push(ev: Record) returns (ok: bool)
      requires Valid()
      modifies this
      ensures Valid()
      ensures ok == AssemblerSpec.Push(old(View()), ev).Ok?
      ensures ok ==> View() == AssemblerSpec.Push(old(View()), ev).value
    {
      match ev {
        case VariableName(name) =>
          varNames := varNames + [name];
        case Value(id, value) =>
          ok := PushValue(id, value);
          if !ok { return; }
        case Event(marker) =>
          ok := PushEvent(marker);
          if !ok { return; }
        case Function(name) =>
          ok := CloseRun();
          if !ok { return; }
          functions := functions + [name];
        case Call(id) =>
          ok := CloseRun();
          if !ok { return; }
          ok := PushCall(id);
          if !ok { return; }
        case Return =>
          ok := CloseRun();
          if !ok { return; }
          ok := PushReturn();
          if !ok { return; }
        case Delimiter =>
          ok := CloseRun();
          if !ok { return; }
        case Unknown =>
      }
      NoteGroupBoundary();
      ok := true;
    }

    /** Closes the assembler at end of input. */
    method Finish() returns (ok: bool)
      requires Valid()
      modifies this
      ensures Valid()
      ensures ok == AssemblerSpec.Finish(old(View())).Ok?
      ensures ok ==> View() == AssemblerSpec.Finish(old(View())).value
    {
      ok := CloseRun();
      if !ok { return; }
      CloseDanglingImports("", true);
      if |stack| > 0 { return false; }
      NoteGroupBoundary();
    }
  }

  /** reconstructCrossings: recovers every crossing of a finished recording. */
  method ReconstructCrossings(events: seq<Record>) returns (ok: bool, crossings: seq<Crossing>, marked: bool)
    ensures ok == Reconstruct(events).Ok?
    ensures ok ==> crossings == Reconstruct(events).value.crossings
    ensures ok ==> marked == Reconstruct(events).value.sawImportMarker
  {
    crossings, marked := [], false;
    var a := new Assembler();
    for i := 0 to |events|
      invariant fresh(a) && a.Valid()
      invariant PushAll(EMPTY, events) == PushAll(a.View(), events[i..])
    {
      assert events[i..][1..] == events[i + 1..];
      ok := a.Push(events[i]);
      if !ok { return; }
    }
    ok := a.Finish();
    if ok { crossings, marked := a.crossings, a.sawImportMarker; }
  }
}
