/** From bytes to verdict: however the bytes of a strict recording arrive, the streaming replay and the
    batch replay of the finished file reach the same verdict. */
module EndToEnd {
  import opened Wrappers
  import opened Labels
  import opened Crossings
  import opened AssemblerSpec
  import opened AssemblerInvariant
  import opened StreamSpec
  import opened StreamTheorems
  import opened ReplaySpec
  import opened Agreement
  import opened BatchLoad
  import opened Truncation
  import Faithful
  import ScannerProofs
  import ScannerSpec

  function EndingOf(end: End): Ending {
    match end
    case Clean => CleanEnd
    case Stopped(Truncated(_, _, _, _)) => TruncatedEnd
    case Stopped(Malformed) => BrokenEnd
  }

  /** The recording `LoadRecording` makes of an assembled document. */
  function RecordingOfAsm(s: Asm): Recording { Recording(s.crossings, s.sawImportMarker) }

  lemma {:induction false} AssembledIsNumbered(s: Asm)
    requires Invariant(s)
    ensures Faithful.Numbered(s.crossings) && WitnessedAll(s.crossings)
    ensures RecordingOfAsm(s) == Recording(s.crossings, AnyMarked(s.crossings))
  {
    forall i | 0 <= i < |s.crossings|
      ensures s.crossings[i].seqNo == i && WitnessedCrossing(s.crossings[i])
    {
      assert PreorderAt(s.crossings, i) && WitnessedAt(s.crossings, i);
    }
  }

  /** For every guest, every strict recording and every way its bytes arrive: the stream is clean if and
      only if the finished file loads (and no read fails), and then the streaming driver accepts if and
      only if the batch driver accepts the file and every call group starts with its only top-level
      exported call; and then both report the same. */
  lemma {:induction false} SameVerdictFromBytes<S>(m: Module<S>, decode: Decoder, src: seq<Read>, fuel: nat)
    requires Strict(BytesOf(src))
    ensures var feed, file := Stream(decode, src), Load(decode, BytesOf(src));
            && (feed.end.Clean? <==> file.Ok? && Intact(src))
            && (feed.end.Clean? ==>
                  var batch := Replay(m, RecordingOfAsm(file.value), 0, 0, None, fuel);
                  var streamed := StreamingReplay(m, feed.groups, EndingOf(feed.end), fuel);
                  && (streamed.Pass? <==> batch.Pass? && forall k :: 0 <= k < |feed.groups| ==> GroupShape(feed.groups[k]))
                  && (streamed.Pass? ==> streamed == batch))
  {
    hide Stream;
    hide Replay;
    hide StreamingReplay;
    hide Load;
    hide OnePass;
    hide Strict;
    hide Intact;
    StreamAgainstFile(decode, src);
    var file := Load(decode, BytesOf(src));
    LoadIsOnePass(decode, BytesOf(src));
    if file.Ok? && Intact(src) {
      OnePassInvariant(decode, BytesOf(src));
      AssembledIsNumbered(file.value);
      DriversAgree(m, Stream(decode, src).groups, fuel);
    }
  }

  lemma {:induction false} OnePassInvariant(decode: Decoder, bytes: seq<byte>)
    requires OnePass(decode, bytes).Ok?
    ensures Invariant(OnePass(decode, bytes).value)
  {
    hide Invariant;
    hide Reconstruct;
    var elems := ScannerProofs.ScanBytes(ScannerSpec.Before, bytes).elems;
    ReconstructInvariant(DecodeAll(decode, elems).value);
  }

  /** In a recording whose exports have plain names, a call group has the shape the streaming
      driver wants exactly when its first crossing is an exported call. */
  lemma {:induction false} PlainGroupShape(s: Asm, i: nat)
    requires Invariant(s) && i < |s.groupEnds|
    requires forall c :: c in s.crossings && c.kind.Export? ==> ParseImportLabel(c.name).None?
    ensures Group(s, i) != [] && (GroupShape(Group(s, i)) <==> Group(s, i)[0].kind.Export?)
  {
    hide ParseImportLabel;
    var a, b := GroupBase(s.groupEnds, i), s.groupEnds[i];
    assert AssemblerInvariant.GroupAt(s.crossings, s.groupEnds, s.groupStart, i);
    var g := Group(s, i);
    assert g[0] == s.crossings[a];
    if g[0].kind.Export? {
      assert PlainCall(s.crossings[a]);
      forall k | 0 < k < |g| ensures !TopLevelExport(g[k]) { assert g[k] == s.crossings[a + k]; }
    }
  }

  lemma {:induction false} ConcatPrefix(a: seq<seq<Crossing>>, b: seq<seq<Crossing>>)
    requires a <= b
    ensures Concat(a) <= Concat(b)
    decreases |a|
  {
    if a != [] {
      assert a[1..] <= b[1..];
      ConcatPrefix(a[1..], b[1..]);
      var x, y := Concat(a[1..]), Concat(b[1..]);
      assert forall k :: 0 <= k < |x| ==> x[k] == y[k];
      assert a[0] + x == (a[0] + y)[..|a[0]| + |x|];
    }
  }

  lemma {:induction false} TopLevelPrefix(part: seq<Crossing>, whole: seq<Crossing>, i: nat)
    requires part <= whole && i <= |part|
    ensures TopLevelFrom(whole, i) == TopLevelFrom(part, i) + TopLevelFrom(whole, |part|)
    decreases |part| - i
  {
    var rest := TopLevelFrom(whole, |part|);
    if i < |part| {
      TopLevelPrefix(part, whole, i + 1);
      var head := if TopLevelExport(part[i]) then [part[i]] else [];
      assert part[i] == whole[i];
      assert head + (TopLevelFrom(part, i + 1) + rest) == head + TopLevelFrom(part, i + 1) + rest;
    } else {
      assert [] + rest == rest;
    }
  }

  lemma {:induction false} MarkedPrefix(part: seq<Crossing>, whole: seq<Crossing>)
    requires part <= whole
    ensures AnyMarked(part) ==> AnyMarked(whole)
  {
    if AnyMarked(part) {
      var i :| 0 <= i < |part| && part[i].marked;
      assert whole[i].marked;
    }
  }

  /** A replay accepted from a stream that was cut short is what the batch driver of the finished
      file does for its first calls: same calls, same quiescent states, same counts. */
  lemma {:induction false} TruncatedVerdictFromBytes<S>(m: Module<S>, decode: Decoder, whole: seq<byte>, cut: nat,
                                                        src: seq<Read>, fuel: nat)
    requires Strict(whole) && Load(decode, whole).Ok? && cut < ClosedAt(whole)
    requires Intact(src) && BytesOf(src) == whole[..cut]
    requires var feed := Stream(decode, src); StreamingReplay(m, feed.groups, EndingOf(feed.end), fuel).Pass?
    ensures var feed := Stream(decode, src);
            var report := StreamingReplay(m, feed.groups, EndingOf(feed.end), fuel).value;
            var rec := RecordingOfAsm(Load(decode, whole).value);
            var exports := TopLevelFrom(rec.crossings, 0);
            && |feed.groups| <= |exports|
            && var d := Drive(m, rec, Idle(0), m.init, exports[..|feed.groups|], fuel);
               && d.Pass? && d.value.points == report.points && d.value.r.cursor == report.cursor
               && d.value.r.exportCalls == report.exportCalls && d.value.r.importCalls == report.importCalls
               && d.value.r.unchecked == report.unchecked
  {
    hide Stream;
    hide Replay;
    hide StreamingReplay;
    hide OnePass;
    hide Load;
    hide Strict;
    hide ClosedAt;
    hide Drive;
    hide Invariant;
    hide Intact;
    CutFile(decode, whole, cut, src);
    var groups := Stream(decode, src).groups;
    var b := Load(decode, whole).value;
    OnePassInvariant(decode, whole);
    OnePassGroups(b, decode, whole);
    ConcatPrefix(groups, GroupsFrom(b, 0));
    MarkedPrefix(Concat(groups), b.crossings);
    AssembledIsNumbered(b);
    TruncatedReplayStands(m, groups, RecordingOfAsm(b), fuel);
    TopLevelPrefix(Concat(groups), b.crossings, 0);
    GroupsDriven(m, groups, fuel);
    assert TopLevelFrom(b.crossings, 0)[..|groups|] == TopLevelFrom(Concat(groups), 0);
  }

  /** When that replay is accepted: if the finished file replays and its call groups are one exported
      call each, the cut stream is accepted if and only if what arrived of it holds an import marker or
      the calls that arrived make no `() -> ()` import. */
  lemma {:induction false} TruncatedExactlyFromBytes<S>(m: Module<S>, decode: Decoder, whole: seq<byte>, cut: nat,
                                                        src: seq<Read>, fuel: nat)
    requires Strict(whole) && Load(decode, whole).Ok? && cut < ClosedAt(whole)
    requires Intact(src) && BytesOf(src) == whole[..cut]
    requires var b := Load(decode, whole).value;
             && Replay(m, RecordingOfAsm(b), 0, 0, None, fuel).Pass?
             && forall k :: 0 <= k < |GroupsFrom(b, 0)| ==> GroupShape(GroupsFrom(b, 0)[k])
    ensures var feed := Stream(decode, src);
            var rec := RecordingOfAsm(Load(decode, whole).value);
            var exports := TopLevelFrom(rec.crossings, 0);
            && |feed.groups| <= |exports|
            && (StreamingReplay(m, feed.groups, EndingOf(feed.end), fuel).Pass? <==>
                  || AnyMarked(Concat(feed.groups))
                  || ValuelessCalls(m, rec, Idle(0), m.init, exports[..|feed.groups|], fuel) == 0)
  {
    hide Stream;
    hide Replay;
    hide StreamingReplay;
    hide OnePass;
    hide Load;
    hide Strict;
    hide ClosedAt;
    hide ValuelessCalls;
    hide Invariant;
    hide GroupShape;
    hide Intact;
    CutFile(decode, whole, cut, src);
    var groups := Stream(decode, src).groups;
    var b := Load(decode, whole).value;
    OnePassInvariant(decode, whole);
    OnePassGroups(b, decode, whole);
    AssembledIsNumbered(b);
    TruncatedExactly(m, GroupsFrom(b, 0), |groups|, fuel);
    assert GroupsFrom(b, 0)[..|groups|] == groups;
  }

  /** The groups of a finished document carry all its crossings. */
  lemma {:induction false} OnePassGroups(b: Asm, decode: Decoder, bytes: seq<byte>)
    requires OnePass(decode, bytes) == Ok(b)
    ensures Concat(GroupsFrom(b, 0)) == b.crossings
  {
    hide Reconstruct;
    var elems := ScannerProofs.ScanBytes(ScannerSpec.Before, bytes).elems;
    ReconstructInvariant(DecodeAll(decode, elems).value);
    GroupsTile(b, 0);
    assert b.crossings[0..|b.crossings|] == b.crossings;
  }

  /** An accepted stream has one exported call per group. */
  lemma {:induction false} GroupsDriven<S>(m: Module<S>, groups: seq<seq<Crossing>>, fuel: nat)
    requires StreamingReplay(m, groups, TruncatedEnd, fuel).Pass?
    ensures |TopLevelFrom(Concat(groups), 0)| == |groups|
  {
    hide DriveGroups;
    hide Drive;
    var all, empty := Concat(groups), Recording([], false);
    assert [] + all == all;
    DriveGroupsRecording(m, empty, Idle(0), m.init, groups, fuel);
    DriveWhole(m, empty, Recording(all, AnyMarked(all)), Idle(0), m.init, groups, fuel);
  }
}
