/** What every error-free run of the assembler keeps: the crossings form the preorder of a
    forest, the stack is its open rightmost branch, completed call groups tile a prefix of
    the crossings and never change, and a crossing without values is always witnessed by
    realm markers. */
module AssemblerInvariant {
  import opened Wrappers
  import opened Labels
  import opened Crossings
  import opened AssemblerSpec

  // ---- the invariant, clause by clause ----------------------------------

  /** Crossing `i` knows its position and is at most one level below its predecessor. */
  ghost predicate PreorderAt(cs: seq<Crossing>, i: nat) {
    && i < |cs| && cs[i].seqNo == i
    && cs[i].depth <= (if i == 0 then 0 else cs[i - 1].depth + 1)
  }

  /** The depths form the preorder of a forest. */
  ghost predicate Preorder(cs: seq<Crossing>) {
    forall i: nat :: i < |cs| ==> PreorderAt(cs, i)
  }

  ghost predicate InsideFrom(cs: seq<Crossing>, at: nat, depth: nat) {
    forall i :: at < i < |cs| ==> cs[i].depth > depth
  }

  /** Stack entry `k` is at depth `k`, and every later crossing is inside it. */
  ghost predicate BranchAt(cs: seq<Crossing>, stack: seq<Open>, k: nat) {
    && k < |stack| && stack[k].idx < |cs|
    && cs[stack[k].idx].depth == k
    && InsideFrom(cs, stack[k].idx, k)
  }

  ghost predicate OpenBranch(cs: seq<Crossing>, stack: seq<Open>) {
    forall k: nat :: k < |stack| ==> BranchAt(cs, stack, k)
  }

  /** Results are present exactly when a result run was seen, and an import crossing with no
      values at all is bracketed by its markers. */
  ghost predicate WitnessedCrossing(c: Crossing) {
    && c.hasResults == (c.results != [])
    && (c.kind.Import? && c.args == [] && c.results == [] ==> c.marked)
    && (c.kind.Export? ==> !c.marked)
  }

  ghost predicate WitnessedAt(cs: seq<Crossing>, i: nat) { i < |cs| && WitnessedCrossing(cs[i]) }

  ghost predicate Witnessed(cs: seq<Crossing>) {
    forall i: nat :: i < |cs| ==> WitnessedAt(cs, i)
  }

  function GroupBase(ends: seq<nat>, g: nat): nat
    requires g <= |ends|
  {
    if g == 0 then 0 else ends[g - 1]
  }

  /** An exported call whose name cannot be taken for an import label. The result run of an
      export named `import #<n>` would close its frame before its `Return`. */
  ghost predicate PlainExport(c: Crossing) { c.kind.Export? && ParseImportLabel(c.name).None? }

  ghost predicate PlainCall(c: Crossing) { PlainExport(c) && c.depth == 0 }

  /** A group starts at depth 0, and nothing at depth 0 follows an exported call in it. */
  ghost predicate CallGroup(cs: seq<Crossing>, a: nat, b: nat) {
    && a < b <= |cs| && cs[a].depth == 0
    && (forall i, j :: a <= i < j < b && PlainCall(cs[i]) ==> cs[j].depth > 0)
  }

  ghost predicate GroupAt(cs: seq<Crossing>, ends: seq<nat>, start: nat, g: nat) {
    && g < |ends| && ends[g] <= start
    && CallGroup(cs, GroupBase(ends, g), ends[g])
  }

  /** `ends` cuts `cs[..start]` into call groups. */
  ghost predicate Tiling(cs: seq<Crossing>, ends: seq<nat>, start: nat) {
    && start <= |cs|
    && start == GroupBase(ends, |ends|)
    && (forall g: nat :: g < |ends| ==> GroupAt(cs, ends, start, g))
  }

  /** The group being assembled starts at depth 0 and holds every open crossing. */
  ghost predicate CurrentGroup(cs: seq<Crossing>, stack: seq<Open>, start: nat) {
    && start <= |cs|
    && (forall k :: 0 <= k < |stack| ==> start <= stack[k].idx < |cs|)
    && (forall k :: 0 <= k < |stack| && cs[stack[k].idx].kind.Export? ==> stack[k].tag == cs[stack[k].idx].name)
    && (start < |cs| ==> cs[start].depth == 0)
  }

  /** The part of the invariant every intermediate state satisfies. */
  ghost predicate Core(s: Asm) {
    && Preorder(s.crossings)
    && OpenBranch(s.crossings, s.stack)
    && Witnessed(s.crossings)
    && Tiling(s.crossings, s.groupEnds, s.groupStart)
    && CurrentGroup(s.crossings, s.stack, s.groupStart)
    && (s.pending.Some? ==> s.pending.value.values != [])
    && s.sawImportMarker == AnyMarked(s.crossings)
  }

  /** An exported call of the group being assembled is the open bottom of the stack. */
  ghost predicate CallsOpen(cs: seq<Crossing>, stack: seq<Open>, start: nat) {
    forall i :: start <= i < |cs| && PlainCall(cs[i]) ==> stack != [] && stack[0].idx == i
  }

  ghost predicate Invariant(s: Asm) {
    && Core(s)
    && CallsOpen(s.crossings, s.stack, s.groupStart)
    && (s.stack == [] && s.pending.None? ==> s.groupStart == |s.crossings|)
  }

  ghost predicate SameCall(c: Crossing, d: Crossing) {
    && c.kind == d.kind && c.name == d.name && c.index == d.index
    && c.depth == d.depth && c.seqNo == d.seqNo
  }

  ghost predicate KeptAt(cs: seq<Crossing>, ds: seq<Crossing>, start: nat, i: nat) {
    && i < |cs| && i < |ds|
    && SameCall(cs[i], ds[i]) && (i < start ==> cs[i] == ds[i])
  }

  /** What a step may not do: change a completed group, or the identity of any crossing. */
  ghost predicate Extends(s: Asm, t: Asm) {
    && |s.crossings| <= |t.crossings|
    && (forall i: nat :: i < |s.crossings| ==> KeptAt(s.crossings, t.crossings, s.groupStart, i))
    && s.groupStart <= t.groupStart && s.groupEnds <= t.groupEnds
    && (s.sawImportMarker ==> t.sawImportMarker)
  }

  lemma {:induction false} ExtendsTransitive(s: Asm, t: Asm, u: Asm)
    requires Extends(s, t) && Extends(t, u)
    ensures Extends(s, u)
  {
    forall i: nat | i < |s.crossings| ensures KeptAt(s.crossings, u.crossings, s.groupStart, i) {
      assert KeptAt(s.crossings, t.crossings, s.groupStart, i) && KeptAt(t.crossings, u.crossings, t.groupStart, i);
    }
  }

  // ---- clauses under the two ways the crossings change ------------------

  lemma {:induction false} TilingKept(cs: seq<Crossing>, ds: seq<Crossing>, ends: seq<nat>, start: nat)
    requires Tiling(cs, ends, start)
    requires |ds| >= |cs| && forall i :: 0 <= i < start ==> ds[i] == cs[i]
    ensures Tiling(ds, ends, start)
  {
    forall g: nat | g < |ends| ensures GroupAt(ds, ends, start, g) {
      assert GroupAt(cs, ends, start, g);
    }
  }

  /** Rewriting the values or the marker flag of crossing `at`. */
  lemma {:induction false} UpdateOutline(cs: seq<Crossing>, stack: seq<Open>, at: nat, c: Crossing)
    requires Preorder(cs) && OpenBranch(cs, stack) && at < |cs| && SameCall(cs[at], c)
    ensures Preorder(cs[at := c]) && OpenBranch(cs[at := c], stack)
  {
    var ds := cs[at := c];
    forall i: nat | i < |ds| ensures PreorderAt(ds, i) {
      assert PreorderAt(cs, i);
    }
    forall k: nat | k < |stack| ensures BranchAt(ds, stack, k) {
      assert BranchAt(cs, stack, k);
    }
  }

  /** Appending a crossing at the depth of the stack. */
  lemma {:induction false} AppendOutline(cs: seq<Crossing>, stack: seq<Open>, c: Crossing)
    requires Preorder(cs) && OpenBranch(cs, stack) && c.seqNo == |cs| && c.depth == |stack|
    ensures Preorder(cs + [c]) && OpenBranch(cs + [c], stack)
  {
    var ds := cs + [c];
    forall i: nat | i < |ds| ensures PreorderAt(ds, i) {
      if i < |cs| {
        assert PreorderAt(cs, i);
      } else if stack != [] {
        assert BranchAt(cs, stack, |stack| - 1);
      }
    }
    forall k: nat | k < |stack| ensures BranchAt(ds, stack, k) {
      assert BranchAt(cs, stack, k);
    }
  }

  // ---- the primitive moves ---------------------------------------------

  lemma {:induction false} PopKeeps(s: Asm)
    requires Core(s) && s.stack != []
    ensures Core(Pop(s)) && Extends(s, Pop(s))
  {
    var t := Pop(s);
    forall k: nat | k < |t.stack| ensures BranchAt(t.crossings, t.stack, k) {
      assert BranchAt(s.crossings, s.stack, k);
    }
  }

  /** Filling in the values, or setting the marker flag, of the open top crossing. */
  lemma {:induction false} UpdateTopKeeps(s: Asm, c: Crossing)
    requires Core(s.(sawImportMarker := AnyMarked(s.crossings))) && s.stack != []
    requires SameCall(s.crossings[Top(s).idx], c) && WitnessedCrossing(c)
    requires s.crossings[Top(s).idx].marked ==> c.marked
    requires s.sawImportMarker == (AnyMarked(s.crossings) || c.marked)
    ensures Core(UpdateTop(s, c)) && Extends(s, UpdateTop(s, c))
  {
    var t, at := UpdateTop(s, c), Top(s).idx;
    UpdateOutline(s.crossings, s.stack, at, c);
    TilingKept(s.crossings, t.crossings, s.groupEnds, s.groupStart);
    forall i: nat | i < |t.crossings| ensures WitnessedAt(t.crossings, i) {
      assert WitnessedAt(s.crossings, i);
    }
    assert t.crossings[at] == c;
    assert forall i :: 0 <= i < |s.crossings| && i != at ==> t.crossings[i] == s.crossings[i];
  }

  lemma {:induction false} AppendKeeps(s: Asm, c: Crossing)
    requires Core(s.(sawImportMarker := AnyMarked(s.crossings)))
    requires c.seqNo == |s.crossings| && c.depth == |s.stack| && WitnessedCrossing(c)
    requires s.sawImportMarker == (AnyMarked(s.crossings) || c.marked)
    ensures Core(Append(s, c)) && Extends(s, Append(s, c))
  {
    var t, n := Append(s, c), |s.crossings|;
    AppendOutline(s.crossings, s.stack, c);
    TilingKept(s.crossings, t.crossings, s.groupEnds, s.groupStart);
    forall i: nat | i < |t.crossings| ensures WitnessedAt(t.crossings, i) {
      assert i < n ==> WitnessedAt(s.crossings, i);
    }
    assert t.crossings[n] == c;
    assert forall i :: 0 <= i < n ==> t.crossings[i] == s.crossings[i];
    assert s.groupStart == n ==> s.stack == [] by {
      if s.stack != [] { assert s.stack[0].idx < n; }
    }
  }

  lemma {:induction false} OpenKeeps(s: Asm, c: Crossing, tag: string)
    requires Core(s.(sawImportMarker := AnyMarked(s.crossings)))
    requires c.seqNo == |s.crossings| && c.depth == |s.stack| && WitnessedCrossing(c)
    requires c.kind.Export? ==> c.name == tag
    requires s.sawImportMarker == (AnyMarked(s.crossings) || c.marked)
    ensures Core(OpenCrossing(s, c, tag)) && Extends(s, OpenCrossing(s, c, tag))
  {
    AppendKeeps(s, c);
    var t, n := OpenCrossing(s, c, tag), |s.stack|;
    assert t.crossings == Append(s, c).crossings;
    forall k: nat | k < |t.stack| ensures BranchAt(t.crossings, t.stack, k) {
      assert k < n ==> BranchAt(Append(s, c).crossings, s.stack, k);
    }
  }

  // ---- the transitions --------------------------------------------------

  /** The invariant between records and inside a transition that has not closed a call. */
  ghost predicate Ready(s: Asm) { Core(s) && CallsOpen(s.crossings, s.stack, s.groupStart) }

  lemma {:induction false} PopReady(s: Asm)
    requires Ready(s) && s.stack != [] && !PlainExport(TopCrossing(s))
    ensures Ready(Pop(s)) && Extends(s, Pop(s))
  {
    PopKeeps(s);
  }

  lemma {:induction false} UpdateReady(s: Asm, c: Crossing)
    requires Ready(s.(sawImportMarker := AnyMarked(s.crossings))) && s.stack != []
    requires SameCall(s.crossings[Top(s).idx], c) && WitnessedCrossing(c)
    requires s.crossings[Top(s).idx].marked ==> c.marked
    requires s.sawImportMarker == (AnyMarked(s.crossings) || c.marked)
    ensures Ready(UpdateTop(s, c)) && Extends(s, UpdateTop(s, c))
  {
    UpdateTopKeeps(s, c);
    var t := UpdateTop(s, c);
    assert forall i :: 0 <= i < |s.crossings| ==> SameCall(s.crossings[i], t.crossings[i]);
  }

  lemma {:induction false} OpenReady(s: Asm, c: Crossing, tag: string)
    requires Ready(s.(sawImportMarker := AnyMarked(s.crossings)))
    requires c.seqNo == |s.crossings| && c.depth == |s.stack| && WitnessedCrossing(c)
    requires c.kind.Export? ==> c.name == tag
    requires s.sawImportMarker == (AnyMarked(s.crossings) || c.marked)
    ensures Ready(OpenCrossing(s, c, tag)) && Extends(s, OpenCrossing(s, c, tag))
  {
    OpenKeeps(s, c, tag);
    var t := OpenCrossing(s, c, tag);
    assert forall i :: 0 <= i < |s.crossings| ==> t.crossings[i] == s.crossings[i];
    assert s.stack != [] ==> t.stack[0] == s.stack[0];
  }

  lemma {:induction false} CloseDanglingKeeps(s: Asm, keep: string, force: bool)
    requires Ready(s)
    ensures var t := CloseDanglingImports(s, keep, force); Ready(t) && Extends(s, t)
    decreases |s.stack|
  {
    if Dangling(s, keep, force) {
      PopReady(s);
      CloseDanglingKeeps(Pop(s), keep, force);
    }
  }

  lemma {:induction false} AppendImportReady(s: Asm, c: Crossing)
    requires Ready(s) && c.kind.Import? && !c.marked
    requires c.seqNo == |s.crossings| && c.depth == |s.stack| && WitnessedCrossing(c)
    ensures Ready(Append(s, c)) && Extends(s, Append(s, c))
  {
    AppendKeeps(s, c);
    var t := Append(s, c);
    assert forall i :: 0 <= i < |s.crossings| ==> t.crossings[i] == s.crossings[i];
  }

  lemma {:induction false} ApplyRunKeeps(s: Asm, run: Run)
    requires Ready(s) && run.values != []
    ensures var r := ApplyRun(s, run); r.Ok? ==> Ready(r.value) && Extends(s, r.value)
  {
    var imported := ParseImportLabel(run.tag);
    var r := ApplyRun(s, run);
    if r.Ok? {
      if run.role.Arg? && imported.Some? {
        OpenReady(s, Fresh(s, Import).(index := imported.value, args := run.values), run.tag);
      } else if s.stack != [] && Top(s).tag == run.tag {
        assert WitnessedAt(s.crossings, Top(s).idx);
        if run.role.Arg? {
          UpdateReady(s, TopCrossing(s).(args := run.values));
        } else {
          var c := TopCrossing(s).(results := run.values, hasResults := true);
          UpdateReady(s, c);
          FillThenPop(s, c, imported.Some? && !TopCrossing(s).marked);
        }
      } else {
        AppendImportReady(s, Fresh(s, Import).(index := imported.value, results := run.values, hasResults := true));
      }
    }
  }

  /** The result run of an unmarked import also closes it. */
  lemma {:induction false} FillThenPop(s: Asm, c: Crossing, pop: bool)
    requires s.stack != [] && Shape(s) && SameCall(s.crossings[Top(s).idx], c)
    requires Ready(UpdateTop(s, c)) && Extends(s, UpdateTop(s, c))
    requires pop ==> !PlainExport(c)
    ensures var t := UpdateTop(s, c); pop ==> Ready(Pop(t)) && Extends(s, Pop(t))
  {
    var t := UpdateTop(s, c);
    if pop {
      PopReady(t);
      ExtendsTransitive(s, t, Pop(t));
    }
  }

  lemma {:induction false} CloseRunKeeps(s: Asm)
    requires Ready(s)
    ensures var r := CloseRun(s); r.Ok? ==> Ready(r.value) && Extends(s, r.value)
  {
    if s.pending.Some? {
      var run := s.pending.value;
      var t := s.(pending := None);
      var keep := if run.role.Ret? then run.tag else "";
      CloseDanglingKeeps(t, keep, false);
      var u := CloseDanglingImports(t, keep, false);
      ApplyRunKeeps(u, run);
      var r := ApplyRun(u, run);
      if r.Ok? { ExtendsTransitive(t, u, r.value); }
    }
  }

  lemma {:induction false} EnterKeeps(t: Asm, was: Asm, index: uint32)
    requires Ready(was) && t == was.(sawImportMarker := true)
    ensures var after := OpenMarkedImport(t, index); Ready(after) && Extends(was, after)
  {
    assert t.(sawImportMarker := AnyMarked(t.crossings)) == was;
    var adopted := t.stack != [] && TopCrossing(t).kind.Import? && TopCrossing(t).index == index && !TopCrossing(t).marked;
    if adopted {
      assert WitnessedAt(t.crossings, Top(t).idx);
      UpdateReady(t, TopCrossing(t).(marked := true));
    } else {
      OpenReady(t, Fresh(t, Import).(index := index, marked := true), ImportLabel(index));
    }
  }

  lemma {:induction false} LeaveKeeps(t: Asm, was: Asm, index: uint32)
    requires Ready(was) && t == was.(sawImportMarker := true)
    requires CloseMarkedImport(t, index).Ok?
    ensures Ready(Pop(t)) && Extends(was, Pop(t)) && CloseMarkedImport(t, index).value == Pop(t)
  {
    assert t.(sawImportMarker := AnyMarked(t.crossings)) == was;
    assert t.crossings[Top(t).idx].marked;
    PopReady(t);
  }

  lemma {:induction false} PushEventKeeps(s: Asm, marker: Marker)
    requires Ready(s)
    ensures var r := PushEvent(s, marker); r.Ok? ==> Ready(r.value) && Extends(s, r.value)
  {
    CloseRunKeeps(s);
    var r := CloseRun(s);
    if r.Ok? && marker.ImportEdge? {
      var t := r.value.(sawImportMarker := true);
      if marker.enter {
        EnterKeeps(t, r.value, marker.index);
        ExtendsTransitive(s, r.value, OpenMarkedImport(t, marker.index));
      } else if CloseMarkedImport(t, marker.index).Ok? {
        LeaveKeeps(t, r.value, marker.index);
        ExtendsTransitive(s, r.value, Pop(t));
      }
    }
  }

  lemma {:induction false} PushValueKeeps(s: Asm, id: nat, value: Option<RawValue>)
    requires Ready(s)
    ensures var r := PushValue(s, id, value); r.Ok? ==> Ready(r.value) && Extends(s, r.value)
  {
    CloseRunKeeps(s);
  }

  /** Closing the outermost call completes its group. */
  lemma {:induction false} PushReturnKeeps(s: Asm)
    requires Ready(s)
    ensures var r := PushReturn(s);
            r.Ok? ==> && Core(r.value) && Extends(s, r.value)
                      && (if r.value.stack == [] then CallGroup(r.value.crossings, r.value.groupStart, |r.value.crossings|)
                          else CallsOpen(r.value.crossings, r.value.stack, r.value.groupStart))
  {
    CloseDanglingKeeps(s, "", false);
    var t := CloseDanglingImports(s, "", false);
    if t.stack != [] && TopCrossing(t).kind.Export? {
      PopKeeps(t);
      ExtendsTransitive(s, t, Pop(t));
      assert BranchAt(t.crossings, t.stack, 0);
    }
  }

  lemma {:induction false} NoteKeeps(s: Asm)
    requires Core(s)
    requires s.stack == [] && s.pending.None? && |s.crossings| > s.groupStart ==>
               CallGroup(s.crossings, s.groupStart, |s.crossings|)
    requires (s.stack == [] && s.pending.None?) || CallsOpen(s.crossings, s.stack, s.groupStart)
    ensures Invariant(NoteGroupBoundary(s)) && Extends(s, NoteGroupBoundary(s))
  {
    var t := NoteGroupBoundary(s);
    if t != s {
      forall g: nat | g < |t.groupEnds| ensures GroupAt(t.crossings, t.groupEnds, t.groupStart, g) {
        if g < |s.groupEnds| { assert GroupAt(s.crossings, s.groupEnds, s.groupStart, g); }
      }
    }
  }

  /** With no call open, the pending group is complete as soon as the stack is empty. */
  lemma {:induction false} ReadyNotes(s: Asm)
    requires Ready(s)
    ensures Invariant(NoteGroupBoundary(s)) && Extends(s, NoteGroupBoundary(s))
  {
    NoteKeeps(s);
  }

  lemma {:induction false} TransitionKeeps(s: Asm, ev: Record)
    requires Invariant(s) && !ev.Return?
    ensures var r := Transition(s, ev); r.Ok? ==> Ready(r.value) && Extends(s, r.value)
  {
    match ev
    case Value(id, value) => PushValueKeeps(s, id, value);
    case Event(marker) => PushEventKeeps(s, marker);
    case VariableName(_) =>
    case Unknown =>
    case Delimiter => CloseRunKeeps(s);
    case Function(_) =>
      hide CloseRun;
      CloseRunKeeps(s);
    case Call(id) =>
      hide CloseRun;
      CloseRunKeeps(s);
      var r := CloseRun(s);
      if r.Ok? && id < |r.value.functions| {
        var t, name := r.value, r.value.functions[id];
        OpenReady(t, Fresh(t, Export).(name := name), name);
        ExtendsTransitive(s, t, OpenCrossing(t, Fresh(t, Export).(name := name), name));
      }
  }

  /** One record: the invariant is kept and nothing completed is touched. */
  lemma {:induction false} PushKeepsInvariant(s: Asm, ev: Record)
    requires Invariant(s)
    ensures Shape(s)
    ensures var r := Push(s, ev); r.Ok? ==> Invariant(r.value) && Extends(s, r.value)
  {
    var r := Transition(s, ev);
    if r.Ok? {
      if ev.Return? {
        CloseRunKeeps(s);
        var t := CloseRun(s).value;
        PushReturnKeeps(t);
        ExtendsTransitive(s, t, r.value);
        NoteKeeps(r.value);
      } else {
        TransitionKeeps(s, ev);
        ReadyNotes(r.value);
      }
      ExtendsTransitive(s, r.value, NoteGroupBoundary(r.value));
    }
  }

  /** Every error-free run keeps the invariant and only ever extends what it has. */
  lemma {:induction false} RunKeepsInvariant(s: Asm, evs: seq<Record>)
    requires Invariant(s)
    ensures Shape(s)
    ensures var r := PushAll(s, evs); r.Ok? ==> Invariant(r.value) && Extends(s, r.value)
    decreases |evs|
  {
    if evs == [] {
      assert Extends(s, s);
    } else {
      PushKeepsInvariant(s, evs[0]);
      var r := Push(s, evs[0]);
      if r.Ok? {
        RunKeepsInvariant(r.value, evs[1..]);
        var u := PushAll(r.value, evs[1..]);
        if u.Ok? { ExtendsTransitive(s, r.value, u.value); }
      }
    }
  }

  /** At end of input the groups tile all the crossings. */
  lemma {:induction false} FinishKeepsInvariant(s: Asm)
    requires Invariant(s)
    ensures Shape(s)
    ensures var r := Finish(s);
            r.Ok? ==> Invariant(r.value) && Extends(s, r.value) && r.value.groupStart == |r.value.crossings|
  {
    CloseRunKeeps(s);
    var r := CloseRun(s);
    if r.Ok? {
      CloseDanglingKeeps(r.value, "", true);
      var t := CloseDanglingImports(r.value, "", true);
      ReadyNotes(t);
      ExtendsTransitive(s, r.value, t);
      ExtendsTransitive(s, t, NoteGroupBoundary(t));
    }
  }

  lemma {:induction false} EmptyInvariant()
    ensures Invariant(EMPTY)
  {}

  /** Every finished recording: preorder numbering, groups tiling all crossings, and the
      format witness of the whole recording. */
  lemma {:induction false} ReconstructInvariant(evs: seq<Record>)
    ensures var r := Reconstruct(evs);
            r.Ok? ==> && Invariant(r.value)
                      && r.value.groupStart == |r.value.crossings|
                      && r.value.sawImportMarker == AnyMarked(r.value.crossings)
  {
    EmptyInvariant();
    RunKeepsInvariant(EMPTY, evs);
    var r := PushAll(EMPTY, evs);
    if r.Ok? { FinishKeepsInvariant(r.value); }
  }
}
