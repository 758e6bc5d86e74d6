/** Records without boundary structure (internal/boundarylog/assembler.go:243-292): host state that is
    folded in, markers of other producers, paths and steps, values of other variables. Between two value
    runs they may stand anywhere and any number of times; host state that contradicts itself refuses the
    recording. */
module HostRecords {
  import opened Wrappers
  import opened Crossings
  import opened AssemblerSpec
  import opened Labels
  import opened Acceptance
  import opened Producer
  import RoundTrip
  import LegacyRoundTrip
  import LegacyErasure

  /** A value of a variable whose name is no binding. */
  predicate OtherValue(evs: seq<Record>, ev: Record) {
    var names := VariableNames(evs);
    ev.Value? && ev.variableId < |names| && ParseBindingName(names[ev.variableId]).None?
  }

  predicate Neutral(evs: seq<Record>, ev: Record) {
    || ev == Event(HostRecord(true)) || ev == Event(Foreign) || ev == Event(ExportEdge)
    || ev == Delimiter || ev == Unknown || OtherValue(evs, ev)
  }

  /** `noisy` is `evs` with neutral records inserted between runs. */
  ghost predicate Sprinkled(evs: seq<Record>, noisy: seq<Record>)
    decreases |noisy|
  {
    if noisy == [] then evs == []
    else
      var front, last := noisy[..|noisy| - 1], noisy[|noisy| - 1];
      || (evs != [] && evs[|evs| - 1] == last && Sprinkled(evs[..|evs| - 1], front))
      || (Neutral(front, last) && InFlight(front).None? && Sprinkled(evs, front))
  }

  /** A complete group is noted at once. */
  lemma {:induction false} AlwaysNoted(evs: seq<Record>)
    requires PushAll(EMPTY, evs).Ok?
    ensures var s := PushAll(EMPTY, evs).value; NoteGroupBoundary(s) == s
  {
    if evs != [] {
      hide Transition;
      hide PushAll;
      LastPush(evs);
    }
  }

  lemma {:induction false} NeutralPush(evs: seq<Record>, s: Asm, ev: Record)
    requires Agrees(evs, s) && InFlight(evs).None? && Shape(s) && NoteGroupBoundary(s) == s && Neutral(evs, ev)
    ensures Push(s, ev) == Ok(s)
  {
    hide Skeleton;
    hide ExportNames;
    hide Brackets;
  }

  lemma {:induction false} SprinkledPush(evs: seq<Record>, noisy: seq<Record>)
    requires Sprinkled(evs, noisy)
    ensures PushAll(EMPTY, noisy) == PushAll(EMPTY, evs)
    decreases |noisy|
  {
    if noisy != [] {
      hide PushAll;
      hide Push;
      hide Neutral;
      hide Agrees;
      hide InFlight;
      var front, last := noisy[..|noisy| - 1], noisy[|noisy| - 1];
      LastPush(noisy);
      if evs != [] && evs[|evs| - 1] == last && Sprinkled(evs[..|evs| - 1], front) {
        SprinkledPush(evs[..|evs| - 1], front);
        LastPush(evs);
      } else {
        SprinkledPush(evs, front);
        if PushAll(EMPTY, front).Ok? {
          RunAgreesThroughout(front);
          AlwaysNoted(front);
          NeutralPush(front, PushAll(EMPTY, front).value, last);
        }
      }
    }
  }

  /** Sprinkled over any recording they change nothing: it is refused if it was, and otherwise the
      crossings, the call groups and the format witness are the same. */
  lemma {:induction false} NeutralChangesNothing(evs: seq<Record>, noisy: seq<Record>)
    requires Sprinkled(evs, noisy)
    ensures Reconstruct(noisy) == Reconstruct(evs)
  {
    SprinkledPush(evs, noisy);
  }

  lemma {:induction false} ErrSticks(s: Asm, a: seq<Record>, b: seq<Record>)
    requires Shape(s) && PushAll(s, a).Err?
    ensures PushAll(s, a + b).Err?
  {
    PushAllAppend(s, a, b);
  }

  /** A host record that is refused refuses the recording, wherever it stands. */
  lemma {:induction false} RefusedHostRecord(before: seq<Record>, after: seq<Record>)
    ensures Reconstruct(before + [Event(HostRecord(false))] + after).Err?
  {
    var evs := before + [Event(HostRecord(false))];
    assert evs[..|evs| - 1] == before && evs[|evs| - 1] == Event(HostRecord(false));
    LastPush(evs);
    ErrSticks(EMPTY, evs, after);
  }

  /** The current format, with host state and foreign markers in the stream: read back as recorded. */
  lemma {:induction false} RecordingWithHostState(f: Forest, noisy: seq<Record>)
    requires RenderableForest(f) && Sprinkled(Producer.Recording(f), noisy)
    ensures var r := Reconstruct(noisy);
            && r.Ok?
            && r.value.crossings == PreorderForest(f, 0, 0)
            && r.value.groupEnds == RoundTrip.RootEnds(f, 0)
            && r.value.sawImportMarker == HasImportForest(f)
  {
    hide Reconstruct;
    hide Sprinkled;
    NeutralChangesNothing(Producer.Recording(f), noisy);
    RoundTrip.ReconstructUndoesRecording(f);
  }

  /** And the older one. */
  lemma {:induction false} LegacyRecordingWithHostState(f: Forest, noisy: seq<Record>)
    requires LegacyRoundTrip.Exports(f) && RenderableForest(f) && LegacyRoundTrip.PlainNames(f)
    requires Sprinkled(LegacyRoundTrip.LegacyRecording(f), noisy)
    ensures var r := Reconstruct(noisy);
            && r.Ok? && !r.value.sawImportMarker
            && (r.value.crossings == LegacyErasure.ErasedCalls(f, 0, 0) <==> LegacyErasure.ReadableCalls(f))
  {
    hide Reconstruct;
    hide Sprinkled;
    NeutralChangesNothing(LegacyRoundTrip.LegacyRecording(f), noisy);
    LegacyErasure.ReconstructUndoesLegacyRecording(f);
  }
}
