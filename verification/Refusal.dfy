/** Which streams are refused (internal/boundarylog/stream.go:360-427, stream_replay.go:161-181): exactly
    those that break off in a way no producer that was merely stopped can cause. Whatever calls matched
    before, the replay of such a stream fails. */
module Refusal {
  import opened Wrappers
  import opened Crossings
  import opened AssemblerSpec
  import opened AssemblerInvariant
  import opened ScannerSpec
  import opened ScannerProofs
  import opened StreamSpec
  import opened StreamTheorems
  import opened ReplaySpec
  import opened EndToEnd

  /** The elements of the array, as far as they arrived, are records that all decode. */
  ghost predicate RecordsDecode(decode: Decoder, elems: seq<seq<byte>>) {
    forall k :: 0 <= k < |elems| ==> decode(elems[k]).Some?
  }

  /** Nothing about the bytes is wrong, as far as they arrived: no read failed, they are the beginning of
      an array of objects or all of it with nothing else after it, every record decodes, the assembler
      takes each of them, and values at the very end belong to a call that is open or to an import. */
  ghost predicate Sound(decode: Decoder, src: seq<Read>) {
    var seen := ScanBytes(Before, BytesOf(src));
    && Intact(src) && !seen.phase.Bad? && (seen.phase.Closed? ==> TailOk(src))
    && RecordsDecode(decode, seen.elems)
    && Assemble(decode, EMPTY, seen.elems).Ok?
    && (!seen.phase.Inside? ==> var s := Assemble(decode, EMPTY, seen.elems).value; s.stack != [] || Finish(s).Ok?)
  }

  /** The array is closed, and so is every call in it. */
  ghost predicate Complete(decode: Decoder, src: seq<Read>) {
    var seen := ScanBytes(Before, BytesOf(src));
    && seen.phase.Closed?
    && var s := Assemble(decode, EMPTY, seen.elems); s.Ok? && Finish(s.value).Ok?
  }

  lemma {:induction false} AllDecode(decode: Decoder, elems: seq<seq<byte>>)
    ensures DecodeAll(decode, elems).Some? <==> RecordsDecode(decode, elems)
    decreases |elems|
  {
    if elems != [] {
      AllDecode(decode, elems[1..]);
      assert forall k :: 0 < k < |elems| ==> elems[k] == elems[1..][k - 1];
    }
  }

  /** How a stream ends, in terms of its bytes alone. */
  lemma {:induction false} EndsExactly(decode: Decoder, src: seq<Read>)
    ensures var end := Stream(decode, src).end;
            && (end == Stopped(Malformed) <==> !Sound(decode, src))
            && (end.Clean? <==> Sound(decode, src) && Complete(decode, src))
  {
    hide ScanBytes;
    hide TailOk;
    hide Outcome;
    hide Process;
    hide Intact;
    hide Finish;
    hide Invariant;
    hide Extends;
    hide RecordsDecode;
    ProcessStream(decode, src);
    EmptyInvariant();
    OutcomeConcludes(decode, START, 0, src);
    var seen := ScanBytes(Before, BytesOf(src));
    AllDecode(decode, seen.elems);
    InsideHasBytes(Before, BytesOf(src));
  }

  /** For every guest, source and chunking: a replay accepted from a stream had sound bytes; and on sound
      bytes it is what the driver makes of the groups of a complete recording, or of a truncated one. */
  lemma {:induction false} AcceptedExactlyIfSound<S>(m: Module<S>, decode: Decoder, src: seq<Read>, fuel: nat)
    ensures var feed := Stream(decode, src);
            var out := StreamingReplay(m, feed.groups, EndingOf(feed.end), fuel);
            && (!Sound(decode, src) ==> out.Fail?)
            && (Sound(decode, src) ==>
                  out == StreamingReplay(m, feed.groups, if Complete(decode, src) then CleanEnd else TruncatedEnd, fuel))
  {
    hide Stream;
    hide Sound;
    hide Complete;
    hide DriveGroups;
    EndsExactly(decode, src);
  }

  // ---- which call groups are refused ---------------------------------------------------------------

  /** A call group the module can be driven with: one exported call at depth 0, first, and after it only
      imports; numbered from `start`; and the call has a name the module exports, a manifest that agrees,
      as many arguments as parameters, and results if the signature has any. */
  ghost predicate DrivableGroup<S>(m: Module<S>, group: seq<Crossing>, start: nat) {
    && group != [] && group[0].kind.Export? && group[0].depth == 0
    && (forall i :: 0 < i < |group| ==> group[i].kind.Import?)
    && (forall i :: 0 <= i < |group| ==> group[i].seqNo == start + i)
    && var c := group[0];
       && c.name != "" && c.name in m.exports
       && (c.name in m.manifest ==> m.manifest[c.name] == Some(m.exports[c.name]))
       && |c.args| == |m.exports[c.name].params|
       && (m.exports[c.name].results != [] ==> c.hasResults)
  }

  lemma {:induction false} AppendedGroup<S>(m: Module<S>, rec: Recording, group: seq<Crossing>)
    requires AppendGroup(rec, group).Pass?
    requires CheckExport(m, AppendGroup(rec, group).value.crossings[|rec.crossings|]).Pass?
    ensures DrivableGroup(m, group, |rec.crossings|)
    ensures |AppendGroup(rec, group).value.crossings| == |rec.crossings| + |group|
  {
    assert AppendGroup(rec, group).value.crossings[|rec.crossings|] == group[0];
    forall i | 0 < i < |group| ensures group[i].kind.Import? {
      assert !TopLevelExport(group[i]) && !NestedExport(group[i]);
    }
  }

  lemma {:induction false} DrivenGroups<S>(m: Module<S>, rec: Recording, r: Replayer, s: S, groups: seq<seq<Crossing>>, fuel: nat, k: nat)
    requires DriveGroups(m, rec, r, s, groups, fuel).Pass? && k < |groups|
    ensures DrivableGroup(m, groups[k], |rec.crossings| + |Concat(groups[..k])|)
    decreases k
  {
    hide CallExport;
    hide CheckExport;
    hide AppendGroup;
    hide DrivableGroup;
    AppendedGroup(m, rec, groups[0]);
    if k == 0 {
      assert groups[..0] == [];
    } else {
      var rec1 := AppendGroup(rec, groups[0]).value;
      var called := CallExport(m, rec1, true, r, s, rec1.crossings[|rec.crossings|], fuel).value;
      DrivenGroups(m, rec1, called.r, called.guest, groups[1..], fuel, k - 1);
      assert groups[..k][1..] == groups[1..][..k - 1] && groups[1..][k - 1] == groups[k];
    }
  }

  /** Of every stream that is accepted, complete or truncated, each call group is one exported call that the
      module can be driven with, and the groups are numbered through. */
  lemma {:induction false} AcceptedGroups<S>(m: Module<S>, groups: seq<seq<Crossing>>, end: Ending, fuel: nat, k: nat)
    requires StreamingReplay(m, groups, end, fuel).Pass? && k < |groups|
    ensures !end.BrokenEnd? && DrivableGroup(m, groups[k], |Concat(groups[..k])|)
  {
    hide DriveGroups;
    hide DrivableGroup;
    DrivenGroups(m, Recording([], false), Idle(0), m.init, groups, fuel, k);
  }
}
