/** When a recording in the older format is read back as what was recorded
    (internal/boundarylog/recording.go:381-402, assembler.go:85-176): calls without values are lost, a
    call that only takes arguments and a later call of the same import that only returns results are
    read as one, and what the host calls while it serves an import is put where the runs happen to be. */
module LegacyErasure {
  import opened Wrappers
  import opened Labels
  import opened Crossings
  import opened AssemblerSpec
  import opened Producer
  import opened LegacyRoundTrip

  predicate Valueless(call: Call) { call.args == [] && call.results == [] }

  // ---- the calls made, without the `() -> ()` imports -----------------------

  /** An import with values, then what the host called meanwhile; of one without, only the latter. */
  function ErasedImport(call: Call, depth: nat, seqNo: nat): seq<Crossing>
    requires Exports(call.body)
    decreases call
  {
    if Valueless(call) then ErasedCalls(call.body, depth, seqNo)
    else [OldCrossing(call, depth, seqNo)] + ErasedCalls(call.body, depth + 1, seqNo + 1)
  }

  function ErasedImports(f: Forest, depth: nat, seqNo: nat): seq<Crossing>
    requires Imports(f)
    decreases f
  {
    if f.Nil? then []
    else
      var first := ErasedImport(f.head, depth, seqNo);
      first + ErasedImports(f.tail, depth, seqNo + |first|)
  }

  function ErasedExport(call: Call, depth: nat, seqNo: nat): seq<Crossing>
    requires Imports(call.body)
    decreases call
  {
    [OldCrossing(call, depth, seqNo)] + ErasedImports(call.body, depth + 1, seqNo + 1)
  }

  function ErasedCalls(f: Forest, depth: nat, seqNo: nat): seq<Crossing>
    requires Exports(f)
    decreases f
  {
    if f.Nil? then []
    else
      var first := ErasedExport(f.head, depth, seqNo);
      first + ErasedCalls(f.tail, depth, seqNo + |first|)
  }

  // ---- the condition ----------------------------------------------------------

  /** The import left open after `call`: one that took arguments and returned nothing. */
  function OpenAfter(call: Call, open: Option<uint32>): Option<uint32>
    requires call.ImportCall?
  {
    if call.results != [] then None else if call.args != [] then Some(call.index) else open
  }

  /** Its results do not complete the import left open before it, and what the host calls meanwhile
      has its arguments to go under, or nothing at all. */
  predicate ReadableImport(call: Call, open: Option<uint32>)
    requires call.ImportCall? && Exports(call.body)
    decreases call
  {
    && !(call.args == [] && call.results != [] && open == Some(call.index))
    && (call.body.Nil? || call.args != [] || (call.results == [] && open.None?))
    && ReadableCalls(call.body)
  }

  predicate ReadableImports(f: Forest, open: Option<uint32>)
    requires Imports(f)
    decreases f
  {
    f.Cons? ==> ReadableImport(f.head, open) && ReadableImports(f.tail, OpenAfter(f.head, open))
  }

  predicate ReadableCalls(f: Forest)
    requires Exports(f)
    decreases f
  {
    f.Cons? ==> ReadableImports(f.head.body, None) && ReadableCalls(f.tail)
  }

  // ---- never more is found than was recorded ------------------------------------

  lemma {:induction false} CallsNotLonger(f: Forest, depth: nat, seqNo: nat, depth': nat, seqNo': nat)
    requires Exports(f)
    ensures |FindCalls(f, depth, seqNo)| <= |ErasedCalls(f, depth', seqNo')|
    decreases f
  {
    if f.Cons? {
      var a, b := FindExport(f.head, depth, seqNo), ErasedExport(f.head, depth', seqNo');
      ImportsNotLonger(NOTHING, f.head.body, depth + 1, seqNo + 1, depth' + 1, seqNo' + 1);
      CallsNotLonger(f.tail, depth, seqNo + |a|, depth', seqNo' + |b|);
    }
  }

  lemma {:induction false} ImportsNotLonger(f: Found, calls: Forest, depth: nat, seqNo: nat, depth': nat, seqNo': nat)
    requires FoundOk(f) && Imports(calls)
    ensures |f.crossings| <= |FindImports(f, calls, depth, seqNo).crossings|
            <= |f.crossings| + |ErasedImports(calls, depth', seqNo')|
    decreases calls
  {
    hide FindImport;
    hide ErasedImport;
    if calls.Cons? {
      ImportNotLonger(f, calls.head, depth, seqNo, depth', seqNo');
      var one, first := FindImport(f, calls.head, depth, seqNo), ErasedImport(calls.head, depth', seqNo');
      ImportsNotLonger(one, calls.tail, depth, seqNo, depth', seqNo' + |first|);
    }
  }

  lemma {:induction false} ImportNotLonger(f: Found, call: Call, depth: nat, seqNo: nat, depth': nat, seqNo': nat)
    requires FoundOk(f) && call.ImportCall? && Exports(call.body)
    ensures |f.crossings| <= |FindImport(f, call, depth, seqNo).crossings| <= |f.crossings| + |ErasedImport(call, depth', seqNo')|
    decreases call
  {
    hide FindCalls;
    hide ErasedCalls;
    var g := FindArguments(f, call, depth, seqNo);
    var inner := depth + if g.dangling.Some? then 1 else 0;
    CallsNotLonger(call.body, inner, seqNo + |g.crossings|, depth', seqNo');
    CallsNotLonger(call.body, inner, seqNo + |g.crossings|, depth' + 1, seqNo' + 1);
  }

  /** If nothing is missing, what was found before stays as it is. */
  lemma {:induction false} ImportKeeps(f: Found, call: Call, depth: nat, seqNo: nat)
    requires FoundOk(f) && call.ImportCall? && Exports(call.body)
    ensures var one := FindImport(f, call, depth, seqNo).crossings;
            |one| == |f.crossings| + |ErasedImport(call, depth, seqNo + |f.crossings|)| ==> f.crossings <= one
  {
    hide FindCalls;
    hide ErasedCalls;
    var m := seqNo + |f.crossings|;
    var g := FindArguments(f, call, depth, seqNo);
    var inner := depth + if g.dangling.Some? then 1 else 0;
    CallsNotLonger(call.body, inner, seqNo + |g.crossings|, depth, m);
    CallsNotLonger(call.body, inner, seqNo + |g.crossings|, depth + 1, m + 1);
  }

  lemma {:induction false} ImportsKeep(f: Found, calls: Forest, depth: nat, seqNo: nat)
    requires FoundOk(f) && Imports(calls)
    ensures var all := FindImports(f, calls, depth, seqNo).crossings;
            |all| == |f.crossings| + |ErasedImports(calls, depth, seqNo + |f.crossings|)| ==> f.crossings <= all
    decreases calls
  {
    hide FindImport;
    hide ErasedImport;
    if calls.Cons? {
      var m := seqNo + |f.crossings|;
      var one, first := FindImport(f, calls.head, depth, seqNo), ErasedImport(calls.head, depth, m);
      ImportNotLonger(f, calls.head, depth, seqNo, depth, m);
      ImportsNotLonger(one, calls.tail, depth, seqNo, depth, m + |first|);
      ImportKeeps(f, calls.head, depth, seqNo);
      ImportsKeep(one, calls.tail, depth, seqNo);
    }
  }

  // ---- what is found is what was recorded, exactly if it is readable ---------------

  function IndexOpen(f: Found): Option<uint32>
    requires FoundOk(f)
  {
    if f.dangling.Some? then Some(f.crossings[f.dangling.value].index) else None
  }

  lemma {:induction false} SameTail(a: seq<Crossing>, b: seq<Crossing>, c: seq<Crossing>)
    ensures a + b == a + c <==> b == c
  {
    if a + b == a + c {
      assert b == (a + b)[|a|..] == (a + c)[|a|..] == c;
    }
  }

  lemma {:induction false} SameFront(a: seq<Crossing>, all: seq<Crossing>, b: seq<Crossing>, rest: seq<Crossing>)
    ensures |a| == |b| && a <= all && all == b + rest ==> a == b
  {}

  /** The first crossing of what the host calls is of an exported call. */
  lemma {:induction false} FirstCall(f: Forest, depth: nat, seqNo: nat)
    requires Exports(f) && f.Cons?
    ensures var found := FindCalls(f, depth, seqNo); found != [] && found[0].kind.Export? && found[0].depth == depth
    ensures var erased := ErasedCalls(f, depth, seqNo); erased != [] && erased[0].depth == depth
  {
    hide FindImports;
    hide ErasedImports;
  }

  /** An import with arguments: found as itself, with what the host calls meanwhile inside it. */
  lemma {:induction false} OpeningImport(f: Found, call: Call, depth: nat, seqNo: nat)
    requires FoundOk(f) && call.ImportCall? && Exports(call.body) && call.args != []
    ensures var m := seqNo + |f.crossings|;
            var one := FindImport(f, call, depth, seqNo);
            && one.crossings == f.crossings + ([OldCrossing(call, depth, m)] + FindCalls(call.body, depth + 1, m + 1))
            && IndexOpen(one) == OpenAfter(call, IndexOpen(f))
  {
    hide FindCalls;
    var m, n := seqNo + |f.crossings|, |f.crossings|;
    var c, body := OldCrossing(call, depth, m), FindCalls(call.body, depth + 1, m + 1);
    var half := c.(results := [], hasResults := false);
    var inside := f.crossings + [half] + body;
    assert inside[n] == half;
    if call.results != [] {
      assert inside[n := c] == f.crossings + ([c] + body);
    } else {
      assert half == c;
      assert inside == f.crossings + ([c] + body);
    }
  }

  /** An import without arguments: what the host calls meanwhile, then its results if there are any. */
  lemma {:induction false} ClosingImport(f: Found, call: Call, depth: nat, seqNo: nat)
    requires FoundOk(f) && call.ImportCall? && Exports(call.body) && call.args == []
    ensures var m := seqNo + |f.crossings|;
            var one := FindImport(f, call, depth, seqNo);
            var inner := depth + if f.dangling.Some? then 1 else 0;
            var body := FindCalls(call.body, inner, m);
            if call.results == [] then one == f.(crossings := f.crossings + body)
            else if IndexOpen(f) == Some(call.index) then |one.crossings| == |f.crossings| + |body|
            else one == Found(f.crossings + (body + [OldCrossing(call, depth, m + |body|)]), None)
  {
    hide FindCalls;
    var m := seqNo + |f.crossings|;
    var inner := depth + if f.dangling.Some? then 1 else 0;
    var body := FindCalls(call.body, inner, m);
    var inside := f.crossings + body;
    if f.dangling.Some? { assert inside[f.dangling.value] == f.crossings[f.dangling.value]; }
    var c := OldCrossing(call, depth, m + |body|);
    assert c.(args := []) == c;
    assert f.crossings + body + [c] == f.crossings + (body + [c]);
  }

  lemma {:induction false} ImportExact(f: Found, call: Call, depth: nat, seqNo: nat)
    requires FoundOk(f) && call.ImportCall? && Exports(call.body)
    ensures var one := FindImport(f, call, depth, seqNo);
            && (one.crossings == f.crossings + ErasedImport(call, depth, seqNo + |f.crossings|) <==>
                  ReadableImport(call, IndexOpen(f)))
            && (ReadableImport(call, IndexOpen(f)) ==> IndexOpen(one) == OpenAfter(call, IndexOpen(f)))
    decreases call
  {
    hide FindCalls;
    hide ErasedCalls;
    hide ReadableCalls;
    hide FindImport;
    var m, one, open := seqNo + |f.crossings|, FindImport(f, call, depth, seqNo), IndexOpen(f);
    var erased := ErasedImport(call, depth, m);
    if call.args != [] {
      OpeningImport(f, call, depth, seqNo);
      CallsExact(call.body, depth + 1, m + 1);
      var c := [OldCrossing(call, depth, m)];
      SameTail(f.crossings, c + FindCalls(call.body, depth + 1, m + 1), erased);
      SameTail(c, FindCalls(call.body, depth + 1, m + 1), ErasedCalls(call.body, depth + 1, m + 1));
    } else {
      ClosingImport(f, call, depth, seqNo);
      var inner := depth + if f.dangling.Some? then 1 else 0;
      var body := FindCalls(call.body, inner, m);
      CallsNotLonger(call.body, inner, m, depth + 1, m + 1);
      if call.body.Nil? {
        NoCalls(inner, m);
        NoCalls(depth + 1, m + 1);
        NoCalls(depth, m);
        if call.results != [] && open != Some(call.index) {
          assert body + [OldCrossing(call, depth, m)] == erased;
        }
      } else {
        FirstCall(call.body, inner, m);
        FirstCall(call.body, depth, m);
        CallsExact(call.body, depth, m);
        if call.results == [] {
          SameTail(f.crossings, body, erased);
          assert open.Some? ==> body[0] != erased[0];
        } else if open != Some(call.index) {
          SameTail(f.crossings, body + [OldCrossing(call, depth, m + |body|)], erased);
          assert (body + [OldCrossing(call, depth, m + |body|)])[0] == body[0] != erased[0];
        }
      }
    }
  }

  lemma {:induction false} NoCalls(depth: nat, seqNo: nat)
    ensures FindCalls(Nil, depth, seqNo) == [] && ErasedCalls(Nil, depth, seqNo) == [] && ReadableCalls(Nil)
  {}

  lemma {:induction false} ImportsExact(f: Found, calls: Forest, depth: nat, seqNo: nat)
    requires FoundOk(f) && Imports(calls)
    ensures var all := FindImports(f, calls, depth, seqNo).crossings;
            all == f.crossings + ErasedImports(calls, depth, seqNo + |f.crossings|) <==> ReadableImports(calls, IndexOpen(f))
    decreases calls
  {
    hide FindImport;
    hide ErasedImport;
    hide ReadableImport;
    hide IndexOpen;
    if calls.Nil? {
      assert f.crossings + [] == f.crossings;
    } else {
      var m := seqNo + |f.crossings|;
      var one, first := FindImport(f, calls.head, depth, seqNo), ErasedImport(calls.head, depth, m);
      var rest := ErasedImports(calls.tail, depth, m + |first|);
      var all := FindImports(f, calls, depth, seqNo).crossings;
      ImportExact(f, calls.head, depth, seqNo);
      assert f.crossings + first + rest == f.crossings + (first + rest);
      if ReadableImport(calls.head, IndexOpen(f)) {
        ImportsExact(one, calls.tail, depth, seqNo);
      } else {
        ImportNotLonger(f, calls.head, depth, seqNo, depth, m);
        ImportsNotLonger(one, calls.tail, depth, seqNo, depth, m + |first|);
        ImportsKeep(one, calls.tail, depth, seqNo);
        SameFront(one.crossings, all, f.crossings + first, rest);
      }
    }
  }

  lemma {:induction false} ExportExact(call: Call, depth: nat, seqNo: nat)
    requires call.ExportCall? && Imports(call.body)
    ensures FindExport(call, depth, seqNo) == ErasedExport(call, depth, seqNo) <==> ReadableImports(call.body, None)
    ensures |FindExport(call, depth, seqNo)| <= |ErasedExport(call, depth, seqNo)|
    decreases call
  {
    hide FindImports;
    hide ErasedImports;
    hide ReadableImports;
    var found, erased := FindImports(NOTHING, call.body, depth + 1, seqNo + 1), ErasedImports(call.body, depth + 1, seqNo + 1);
    ImportsExact(NOTHING, call.body, depth + 1, seqNo + 1);
    ImportsNotLonger(NOTHING, call.body, depth + 1, seqNo + 1, depth + 1, seqNo + 1);
    assert [] + erased == erased;
    SameTail([OldCrossing(call, depth, seqNo)], found.crossings, erased);
  }

  lemma {:induction false} CallsExact(f: Forest, depth: nat, seqNo: nat)
    requires Exports(f)
    ensures FindCalls(f, depth, seqNo) == ErasedCalls(f, depth, seqNo) <==> ReadableCalls(f)
    decreases f
  {
    hide FindExport;
    hide ErasedExport;
    hide ReadableImports;
    if f.Cons? {
      var a, b := FindExport(f.head, depth, seqNo), ErasedExport(f.head, depth, seqNo);
      ExportExact(f.head, depth, seqNo);
      CallsNotLonger(f.tail, depth, seqNo + |a|, depth, seqNo + |b|);
      if ReadableImports(f.head.body, None) {
        CallsExact(f.tail, depth, seqNo + |a|);
        SameTail(a, FindCalls(f.tail, depth, seqNo + |a|), ErasedCalls(f.tail, depth, seqNo + |b|));
      } else {
        SameFront(a, FindCalls(f, depth, seqNo), b, ErasedCalls(f.tail, depth, seqNo + |b|));
      }
    }
  }

  // ---- the theorems ------------------------------------------------------------------

  /** Parser undoes printer, older format, calls nested to any depth: every recording is accepted without
      a format witness; and what is recovered is the calls made with exactly the `() -> ()` imports
      erased, if and only if the recording is readable. */
  lemma {:induction false} ReconstructUndoesLegacyRecording(f: Forest)
    requires Exports(f) && RenderableForest(f) && PlainNames(f)
    ensures var r := Reconstruct(LegacyRecording(f));
            && r.Ok? && !r.value.sawImportMarker
            && (r.value.crossings == ErasedCalls(f, 0, 0) <==> ReadableCalls(f))
  {
    hide Reconstruct;
    hide FindCalls;
    hide ErasedCalls;
    LegacyIsFound(f);
    CallsExact(f, 0, 0);
  }

  /** A call of an import that only takes arguments and one of the same import that only returns a
      result are read as one. */
  lemma {:induction false} TwoReadAsOne(v: RawValue)
    ensures var f := Cons(ExportCall(0, "f", [], [], Cons(ImportCall(0, 0, [v], [], Nil), Cons(ImportCall(0, 0, [], [v], Nil), Nil))), Nil);
            && Exports(f) && Reconstruct(LegacyRecording(f)).Ok?
            && Reconstruct(LegacyRecording(f)).value.crossings != ErasedCalls(f, 0, 0)
  {
    hide Reconstruct;
    hide ErasedCalls;
    hide LegacyRecording;
    PlainLetters();
    hide ParseImportLabel;
    var second := Cons(ImportCall(0, 0, [], [v], Nil), Nil);
    LeafImport(second.head, Nil, Some(0));
    LeafImport(ImportCall(0, 0, [v], [], Nil), second, None);
    ReconstructUndoesLegacyRecording(Cons(ExportCall(0, "f", [], [], Cons(ImportCall(0, 0, [v], [], Nil), second)), Nil));
  }

  lemma {:induction false} LeafImport(call: Call, rest: Forest, open: Option<uint32>)
    requires call.ImportCall? && call.body.Nil? && Nameable(call)
    requires Imports(rest) && RenderableForest(rest) && PlainNames(rest)
    ensures var f := Cons(call, rest);
            && Imports(f) && RenderableForest(f) && PlainNames(f)
            && (ReadableImports(f, open) <==>
                  && !(call.args == [] && call.results != [] && open == Some(call.index))
                  && ReadableImports(rest, OpenAfter(call, open)))
  {
    assert ReadableCalls(call.body);
    assert ReadableImport(call, open) <==> !(call.args == [] && call.results != [] && open == Some(call.index));
  }

  /** What the host calls while it serves an import that only returns a result is read back before
      that import. */
  lemma {:induction false} CalledBackTooEarly(v: RawValue)
    ensures var f := Cons(ExportCall(0, "f", [], [], Cons(ImportCall(0, 0, [], [v], Cons(ExportCall(0, "g", [], [], Nil), Nil)), Nil)), Nil);
            && Exports(f) && Reconstruct(LegacyRecording(f)).Ok?
            && Reconstruct(LegacyRecording(f)).value.crossings != ErasedCalls(f, 0, 0)
  {
    hide Reconstruct;
    hide ErasedCalls;
    hide LegacyRecording;
    PlainLetters();
    hide ParseImportLabel;
    var inner := Cons(ExportCall(0, "g", [], [], Nil), Nil);
    assert Exports(inner) && RenderableForest(inner) && PlainNames(inner);
    var body := Cons(ImportCall(0, 0, [], [v], inner), Nil);
    assert Imports(body) && RenderableForest(body) && PlainNames(body) && !ReadableImports(body, None);
    ReconstructUndoesLegacyRecording(Cons(ExportCall(0, "f", [], [], body), Nil));
  }

  lemma {:induction false} PlainLetters()
    ensures ParseImportLabel("f").None? && ParseImportLabel("g").None?
  {}

  /** Imports have one signature each: all calls of an import take arguments, or none does. */
  predicate Signed(f: Forest, takes: set<uint32>)
    decreases f
  {
    f.Cons? ==>
      && (f.head.ImportCall? ==> (f.head.args != [] <==> f.head.index in takes))
      && Signed(f.head.body, takes) && Signed(f.tail, takes)
  }

  /** The host calls exports only while it serves imports with arguments. */
  predicate CallsUnderArguments(f: Forest)
    decreases f
  {
    f.Cons? ==>
      && (f.head.ImportCall? && f.head.body.Cons? ==> f.head.args != [])
      && CallsUnderArguments(f.head.body) && CallsUnderArguments(f.tail)
  }

  /** With one signature per import nothing is read as one: only calls without values are lost, as long
      as the host calls back under arguments. */
  lemma {:induction false} SignedIsReadable(f: Forest, takes: set<uint32>)
    requires Exports(f) && Signed(f, takes) && CallsUnderArguments(f)
    ensures ReadableCalls(f)
    decreases f
  {
    if f.Cons? {
      SignedImports(f.head.body, takes, None);
      SignedIsReadable(f.tail, takes);
    }
  }

  lemma {:induction false} SignedImports(f: Forest, takes: set<uint32>, open: Option<uint32>)
    requires Imports(f) && Signed(f, takes) && CallsUnderArguments(f) && (open.Some? ==> open.value in takes)
    ensures ReadableImports(f, open)
    decreases f
  {
    if f.Cons? {
      SignedIsReadable(f.head.body, takes);
      SignedImports(f.tail, takes, OpenAfter(f.head, open));
    }
  }
}
