/** The replayer as the source runs it: one object whose cursor, counters, stashed errors and
    guest state its methods update, and the two drivers over it. Every method is proved to take
    the step of the same name in `ReplaySpec`. */
module ReplayDriver {
  import opened Wrappers
  import opened Crossings
  import opened ReplaySpec
  import opened StreamSpec
  import Refusal
  import StreamReader

  class Driver<S> {
    const m: Module<S>
    const deferring: bool       // defer the `() -> ()` question to end of stream
    var rec: Recording
    var cursor: nat
    var err: Option<Fault>
    var exportCalls: nat
    var importCalls: nat
    var unchecked: nat
    var deferred: Option<Fault>
    var guest: S

    ghost function View(): Replayer
      reads this
    {
      Replayer(cursor, err, exportCalls, importCalls, unchecked, deferred)
    }

    constructor (m: Module<S>, rec: Recording, deferring: bool)
      ensures this.m == m && this.rec == rec && this.deferring == deferring
      ensures View() == Idle(0) && guest == m.init
    {
      this.m, this.rec, this.deferring := m, rec, deferring;
      cursor, err, exportCalls, importCalls, unchecked, deferred := 0, None, 0, 0, 0, None;
      guest := m.init;
    }

    /** Changes nothing: decides whether the crossing at the cursor is this imported call. */
    method MatchImportCrossing(index: nat, args: seq<Bits>) returns (out: Check<Crossing>)
      requires Typed(m, index, args)
      ensures out == MatchImport(m, rec, cursor, index, args)
    {
      if cursor >= |rec.crossings| { return Fail(UnrecordedCall); }
      var c := rec.crossings[cursor];
      if c.kind != Import { return Fail(WrongKind); }
      if c.index != index { return Fail(WrongImport); }
      var decoded := DecodeTuple(m.decode, c.args, m.imports[index].params);
      if decoded.None? { return Fail(Undecodable); }
      var want := decoded.value;
      for i := 0 to |want|
        invariant forall j :: 0 <= j < i ==> want[j] == args[j]
      {
        if want[i] != args[i] { return Fail(WrongArgument); }
      }
      assert want == args;
      return Pass(c);
    }

    method ServiceUnwitnessedValuelessImport(index: nat)
      requires Typed(m, index, [])
      modifies this`unchecked, this`deferred
      ensures View() == ServiceUnwitnessed(m, rec, deferring, old(View()), index)
    {
      if deferring && deferred.None? {
        var strict := MatchImportCrossing(index, []);
        if strict.Fail? {
          deferred := Some(strict.fault);
        } else {
          deferred := Some(MixedFormats);
        }
      }
      unchecked := unchecked + 1;
    }

    /** An imported call of the guest, compared with the recording and answered from it. */
    method ServiceImport(index: nat, args: seq<Bits>) returns (results: seq<Bits>)
      requires Typed(m, index, args)
      modifies this
      ensures rec == old(rec)
      ensures ReplaySpec.ServiceImport(m, rec, deferring, old(View()), old(guest), index, args) == Served(View(), guest, results)
    {
      var sig := m.imports[index];
      results := Zeros(|sig.results|);
      if err.Some? { return; }
      if sig.params == [] && sig.results == [] && !rec.marked {
        ServiceUnwitnessedValuelessImport(index);
        return [];
      }
      var matched := MatchImportCrossing(index, args);
      if matched.Fail? {
        err := Some(matched.fault);
        return;
      }
      var c := matched.value;
      var mutated := m.mutate(c.seqNo, guest);
      if mutated.None? {
        err := Some(MutationRefused);
        return;
      }
      guest := mutated.value;
      if sig.results != [] && !c.hasResults {
        err := Some(MissingResult);
        return;
      }
      var decoded := DecodeTuple(m.decode, c.results, sig.results);
      if decoded.None? {
        err := Some(Undecodable);
        return;
      }
      results := decoded.value;
      cursor := cursor + 1;
      importCalls := importCalls + 1;
    }

    /** The guest runs until it returns, traps or has used up its steps. */
    method RunGuest(fuel: nat) returns (stop: Stop)
      modifies this
      ensures rec == old(rec)
      ensures ReplaySpec.RunGuest(m, rec, deferring, old(View()), old(guest), fuel) == Ran(View(), guest, stop)
    {
      var left: nat := fuel;
      while left > 0
        invariant rec == old(rec) && left <= fuel
        invariant ReplaySpec.RunGuest(m, rec, deferring, View(), guest, left) ==
                  ReplaySpec.RunGuest(m, rec, deferring, old(View()), old(guest), fuel)
      {
        var action := m.act(guest);
        match action {
          case Returns(vs) => return Finished(vs);
          case Traps => return Trapping;
          case Calls(i, args) =>
            if !Typed(m, i, args) { return Trapping; }
            var results := ServiceImport(i, args);
            guest := m.resume(guest, results);
            left := left - 1;
        }
      }
      return OutOfSteps;
    }

    /** Invokes one recorded exported call and validates what it returns. */
    method CallExport(c: Crossing, fuel: nat) returns (fault: Option<Fault>)
      modifies this
      ensures rec == old(rec)
      ensures var called := ReplaySpec.CallExport(m, rec, deferring, old(View()), old(guest), c, fuel);
              if fault.None? then called == Pass(Called(View(), guest)) else called == Fail(fault.value)
    {
      hide ReplaySpec.RunGuest;
      if cursor >= |rec.crossings| || cursor != c.seqNo { return Some(CrossingOrder); }
      if c.name !in m.exports { return Some(NoSuchExport); }
      var sig := m.exports[c.name];
      var args := DecodeTuple(m.decode, c.args, sig.params);
      if args.None? { return Some(Undecodable); }
      cursor := cursor + 1;
      exportCalls := exportCalls + 1;
      guest := m.enter(guest, c.name, args.value);
      var stop := RunGuest(fuel);
      if err.Some? { return err; }
      match stop {
        case Trapping => return Some(Fault.Trapped);
        case OutOfSteps => return Some(StillRunning);
        case Finished(got) =>
          var want := DecodeTuple(m.decode, c.results, sig.results);
          if want.None? { return Some(Undecodable); }
          if |got| != |want.value| { return Some(WrongReturn); }
          for i := 0 to |got|
            invariant forall j :: 0 <= j < i ==> got[j] == want.value[j]
          {
            if want.value[i] != got[i] { return Some(WrongReturn); }
          }
          assert want.value == got;
          return None;
      }
    }

    /** The export crossings the host initiated directly. */
    method TopLevelExports() returns (out: seq<Crossing>)
      ensures out == TopLevelFrom(rec.crossings, 0)
    {
      out := [];
      for i := 0 to |rec.crossings|
        invariant out + TopLevelFrom(rec.crossings, i) == TopLevelFrom(rec.crossings, 0)
      {
        var c := rec.crossings[i];
        if c.kind == Export && c.depth == 0 { out := out + [c]; }
      }
    }

    /** Whether an exported call was made while another crossing was open. */
    method HasNestedExports() returns (nested: bool)
      ensures nested == HasNested(rec.crossings)
    {
      nested := false;
      for i := 0 to |rec.crossings|
        invariant nested == exists j :: 0 <= j < i && NestedExport(rec.crossings[j])
      {
        var c := rec.crossings[i];
        if c.kind == Export && c.depth > 0 { nested := true; }
      }
    }

    /** Verifies every exported call of the recording against the module. */
    method CheckAll(exports: seq<Crossing>) returns (out: Check<()>)
      ensures out == CheckExports(m, exports)
    {
      for i := 0 to |exports|
        invariant CheckExports(m, exports[i..]) == CheckExports(m, exports)
      {
        assert exports[i..][1..] == exports[i + 1..];
        out := CheckExport(m, exports[i]);
        if out.Fail? { return; }
      }
      return Pass(());
    }

    /** Drives the calls one after the other, noting the guest at every quiescent point. */
    method DriveCalls(exports: seq<Crossing>, fuel: nat) returns (fault: Option<Fault>, points: seq<S>)
      requires !deferring
      modifies this
      ensures rec == old(rec)
      ensures var d := Drive(m, rec, old(View()), old(guest), exports, fuel);
              if fault.None? then d == Pass(Driven(View(), points)) else d == Fail(fault.value)
    {
      hide ReplaySpec.CallExport;
      hide Drive;
      points := [guest];
      ContinueNone(Drive(m, rec, View(), guest, exports, fuel));
      assert exports[0..] == exports;
      for i := 0 to |exports|
        invariant rec == old(rec) && |points| == i + 1 && points[i] == guest
        invariant Drive(m, rec, old(View()), old(guest), exports, fuel) ==
                  Continue(points[..i], Drive(m, rec, View(), guest, exports[i..], fuel))
      {
        DriveOn(m, rec, View(), guest, exports, i, fuel);
        fault := CallExport(exports[i], fuel);
        if fault.Some? { return; }
        ContinueMore(points[..i], points[i], Drive(m, rec, View(), guest, exports[i + 1..], fuel));
        assert (points + [guest])[..i + 1] == points[..i] + [points[i]];
        points := points + [guest];
      }
      DriveOver(m, rec, View(), guest, exports, fuel);
      assert points[..|exports|] + [guest] == points;
      fault := None;
    }

    /** The batch driver: replays the recorded calls between two quiescent points. */
    method Run(fromPoint: int, toPoint: int, resume: Option<S>, fuel: nat) returns (out: Check<Report<S>>)
      requires View() == Idle(0) && guest == m.init && !deferring
      modifies this
      ensures out == Replay(m, old(rec), fromPoint, toPoint, resume, fuel)
    {
      hide Drive;
      hide HasNested;
      hide TopLevelFrom;
      hide CheckExports;
      var exports := TopLevelExports();
      var checked := CheckAll(exports);
      if checked.Fail? { return Fail(checked.fault); }
      var nested := HasNestedExports();
      if nested { return Fail(NestedExports); }
      var range := ResolveRange(fromPoint, toPoint, resume.Some?, |exports|);
      if range.Fail? { return Fail(range.fault); }
      var k, n := range.value.0, range.value.1;
      if k > 0 {
        cursor := if k < |exports| then exports[k].seqNo else |rec.crossings|;
        guest := resume.value;
      }
      var fault, points := DriveCalls(exports[k..n], fuel);
      if fault.Some? { return Fail(fault.value); }
      if k == 0 && n == |exports| && cursor != |rec.crossings| { return Fail(CrossingCount); }
      return Pass(Report(exportCalls, importCalls, unchecked, k, n, points, cursor));
    }

    /** Adds one call group to the growing recording. */
    method AppendGroup(group: seq<Crossing>) returns (fault: Option<Fault>)
      modifies this`rec
      ensures var out := ReplaySpec.AppendGroup(old(rec), group);
              if fault.None? then out == Pass(rec) && |rec.crossings| > |old(rec).crossings| else out == Fail(fault.value)
    {
      var start, top, nested, marked := |rec.crossings|, -1, false, rec.marked;
      var second := false;
      for i := 0 to |group|
        invariant forall j :: 0 <= j < i ==> group[j].seqNo == start + j
        invariant nested == exists j :: 0 <= j < i && NestedExport(group[j])
        invariant marked == (rec.marked || exists j :: 0 <= j < i && group[j].marked)
        invariant -1 <= top < i
        invariant top < 0 ==> !second && forall j :: 0 <= j < i ==> !TopLevelExport(group[j])
        invariant top >= 0 ==> TopLevelExport(group[top]) && forall j :: 0 <= j < top ==> !TopLevelExport(group[j])
        invariant top >= 0 ==> second == exists j :: top < j < i && TopLevelExport(group[j])
        invariant rec == old(rec)
      {
        var c := group[i];
        if c.marked { marked := true; }
        if c.seqNo != start + i { return Some(BadGroup); }
        if c.kind == Export {
          if c.depth > 0 {
            nested := true;
          } else if top >= 0 {
            second := true;
          } else {
            top := i;
          }
        }
      }
      if nested { return Some(NestedExports); }
      if top != 0 || second { return Some(BadGroup); }
      rec := Recording(rec.crossings + group, marked);
      return None;
    }

    /** Appends one call group, checks its exported call against the module and drives it. */
    method DriveGroup(group: seq<Crossing>, fuel: nat) returns (fault: Option<Fault>)
      requires deferring
      modifies this
      ensures var out := OneGroup(m, old(rec), old(View()), old(guest), group, fuel);
              if fault.None? then out == Pass((rec, Called(View(), guest))) else out == Fail(fault.value)
    {
      hide ReplaySpec.AppendGroup;
      hide ReplaySpec.CallExport;
      hide CheckExport;
      var start := |rec.crossings|;
      fault := AppendGroup(group);
      if fault.Some? { return; }
      var c := rec.crossings[start];
      var checked := CheckExport(m, c);
      if checked.Fail? { return Some(checked.fault); }
      fault := CallExport(c, fuel);
    }
  }

  /** `d` after the states `before`. */
  ghost function Continue<S>(before: seq<S>, d: Check<Driven<S>>): Check<Driven<S>> {
    match d
    case Fail(f) => Fail(f)
    case Pass(driven) => Pass(Driven(driven.r, before + driven.points))
  }

  /** Driving the calls from the `i`-th on: that call, and then the others. */
  lemma {:induction false} DriveOn<S>(m: Module<S>, rec: Recording, r: Replayer, s: S, exports: seq<Crossing>, i: nat, fuel: nat)
    requires i < |exports|
    ensures Drive(m, rec, r, s, exports[i..], fuel) ==
            match CallExport(m, rec, false, r, s, exports[i], fuel)
            case Fail(f) => Fail(f)
            case Pass(called) =>
              (match Drive(m, rec, called.r, called.guest, exports[i + 1..], fuel)
               case Fail(f) => Fail(f)
               case Pass(d) => Pass(Driven(d.r, [s] + d.points)))
  {
    assert exports[i..][0] == exports[i] && exports[i..][1..] == exports[i + 1..];
  }

  lemma {:induction false} DriveOver<S>(m: Module<S>, rec: Recording, r: Replayer, s: S, exports: seq<Crossing>, fuel: nat)
    ensures Drive(m, rec, r, s, exports[|exports|..], fuel) == Pass(Driven(r, [s]))
  {}

  lemma {:induction false} ContinueNone<S>(d: Check<Driven<S>>)
    ensures Continue([], d) == d
  {
    if d.Pass? { assert [] + d.value.points == d.value.points; }
  }

  lemma {:induction false} ContinueMore<S>(before: seq<S>, s: S, d: Check<Driven<S>>)
    ensures Continue(before, match d case Fail(f) => Fail(f) case Pass(x) => Pass(Driven(x.r, [s] + x.points))) ==
            Continue(before + [s], d)
  {
    if d.Pass? { assert before + ([s] + d.value.points) == before + [s] + d.value.points; }
  }

  /** Replay: the batch driver over a finished recording. */
  method ReplayRecording<S>(m: Module<S>, rec: Recording, fromPoint: int, toPoint: int, resume: Option<S>, fuel: nat)
    returns (out: Check<Report<S>>)
    ensures out == Replay(m, rec, fromPoint, toPoint, resume, fuel)
  {
    var r := new Driver(m, rec, false);
    out := r.Run(fromPoint, toPoint, resume, fuel);
  }

  /** Drives one exported call per call group the reader yields, to the end of the stream. */
  method DriveStream<S>(r: Driver<S>, src: StreamReader.StreamReader, fuel: nat)
    returns (fault: Option<Fault>, points: seq<S>, end: Ending)
    requires src.Valid() && r.deferring
    modifies r, src, src.sc, src.asm
    ensures var feed := old(src.Future());
            var d := DriveGroups(r.m, old(r.rec), old(r.View()), old(r.guest), feed.groups, fuel);
            if fault.Some? then d == Fail(fault.value)
            else
              && d == Pass(Streamed(r.rec, r.View(), points)) && |points| == |feed.groups| + 1
              && (end.CleanEnd? <==> feed.end.Clean?)
              && (end.BrokenEnd? <==> feed.end == Stopped(Malformed))
  {
    hide DriveGroups;
    hide OneGroup;
    hide Outcome;
    ghost var feed := src.Future();
    var count := 0;
    fault, points, end := None, [r.guest], CleanEnd;
    ResumeNone(DriveGroups(r.m, r.rec, r.View(), r.guest, feed.groups, fuel));
    while true
      invariant src.Valid() && fault.None? && end == CleanEnd
      invariant src.Future().end == feed.end && count + |src.Future().groups| == |feed.groups|
      invariant |points| == count + 1 && points[count] == r.guest
      invariant DriveGroups(r.m, old(r.rec), old(r.View()), old(r.guest), feed.groups, fuel) ==
                Resume(points[..count], DriveGroups(r.m, r.rec, r.View(), r.guest, src.Future().groups, fuel))
      decreases |src.Future().groups|
    {
      ghost var left := src.Future().groups;
      var answer := src.NextGroup();
      if answer.EndOfStream? { break; }
      if answer.Failing? {
        end := if answer.failure.Malformed? then BrokenEnd else TruncatedEnd;
        break;
      }
      GroupByGroup(r.m, r.rec, r.View(), r.guest, left, fuel);
      fault := r.DriveGroup(answer.group, fuel);
      if fault.Some? { return; }
      ResumeMore(points[..count], points[count], DriveGroups(r.m, r.rec, r.View(), r.guest, src.Future().groups, fuel));
      assert (points + [r.guest])[..count + 1] == points[..count] + [points[count]];
      points := points + [r.guest];
      count := count + 1;
    }
    NoGroups(r.m, r.rec, r.View(), r.guest, fuel);
    assert points[..count] + [r.guest] == points;
  }

  /** StreamingReplay: replays a recording while it is produced. */
  method ReplayStream<S>(m: Module<S>, src: StreamReader.StreamReader, fuel: nat) returns (out: Check<Report<S>>)
    requires src.Valid()
    modifies src, src.sc, src.asm
    ensures var feed := old(src.Future());
            && (feed.end.Clean? ==> out == StreamingReplay(m, feed.groups, CleanEnd, fuel))
            && (feed.end == Stopped(Malformed) ==> out.Fail? && out == StreamingReplay(m, feed.groups, BrokenEnd, fuel))
            && (feed.end.Stopped? && feed.end.failure.Truncated? ==> out == StreamingReplay(m, feed.groups, TruncatedEnd, fuel))
  {
    hide DriveGroups;
    hide Outcome;
    var r := new Driver(m, Recording([], false), true);
    var fault, points, end := DriveStream(r, src, fuel);
    if fault.Some? { return Fail(fault.value); }
    if end.BrokenEnd? { return Fail(StreamBroken); }
    if r.deferred.Some? {
      if r.rec.marked { return Fail(r.deferred.value); }
      if end.TruncatedEnd? { return Fail(Unclassifiable); }
    }
    if end.CleanEnd? && r.cursor != |r.rec.crossings| { return Fail(CrossingCount); }
    return Pass(Report(r.exportCalls, r.importCalls, r.unchecked, 0, |points| - 1, points, r.cursor));
  }

  /** The whole pipeline over a producer that is still writing: its bytes, the reader, the driver. It fails
      whenever something about the bytes is wrong, whatever calls matched before that. */
  method ReplayProducer<S>(m: Module<S>, decode: Decoder, src: seq<Read>, fuel: nat) returns (out: Check<Report<S>>)
    ensures !Refusal.Sound(decode, src) ==> out.Fail?
    ensures Refusal.Sound(decode, src) ==>
              out == StreamingReplay(m, Stream(decode, src).groups,
                                     if Refusal.Complete(decode, src) then CleanEnd else TruncatedEnd, fuel)
  {
    hide Refusal.Sound;
    hide Refusal.Complete;
    hide StreamingReplay;
    hide Outcome;
    var reader := new StreamReader.StreamReader(decode, src);
    out := ReplayStream(m, reader, fuel);
    Refusal.AcceptedExactlyIfSound(m, decode, src, fuel);
  }

  /** The replay of one call group. */
  ghost function OneGroup<S>(m: Module<S>, rec: Recording, r: Replayer, s: S, group: seq<Crossing>, fuel: nat)
    : Check<(Recording, Called<S>)>
  {
    match ReplaySpec.AppendGroup(rec, group)
    case Fail(f) => Fail(f)
    case Pass(rec1) =>
      var c := rec1.crossings[|rec.crossings|];
      match CheckExport(m, c)
      case Fail(f) => Fail(f)
      case Pass(_) =>
        match CallExport(m, rec1, true, r, s, c, fuel)
        case Fail(f) => Fail(f)
        case Pass(called) => Pass((rec1, called))
  }

  lemma {:induction false} GroupByGroup<S>(m: Module<S>, rec: Recording, r: Replayer, s: S, groups: seq<seq<Crossing>>, fuel: nat)
    requires groups != []
    ensures DriveGroups(m, rec, r, s, groups, fuel) ==
            match OneGroup(m, rec, r, s, groups[0], fuel)
            case Fail(f) => Fail(f)
            case Pass((rec1, called)) =>
              match DriveGroups(m, rec1, called.r, called.guest, groups[1..], fuel)
              case Fail(f) => Fail(f)
              case Pass(d) => Pass(d.(points := [s] + d.points))
  {}

  lemma {:induction false} NoGroups<S>(m: Module<S>, rec: Recording, r: Replayer, s: S, fuel: nat)
    ensures DriveGroups(m, rec, r, s, [], fuel) == Pass(Streamed(rec, r, [s]))
  {}

  /** `d` after the states `before`. */
  ghost function Resume<S>(before: seq<S>, d: Check<Streamed<S>>): Check<Streamed<S>> {
    match d
    case Fail(f) => Fail(f)
    case Pass(streamed) => Pass(streamed.(points := before + streamed.points))
  }

  lemma {:induction false} ResumeNone<S>(d: Check<Streamed<S>>)
    ensures Resume([], d) == d
  {
    if d.Pass? { assert [] + d.value.points == d.value.points; }
  }

  lemma {:induction false} ResumeMore<S>(before: seq<S>, s: S, d: Check<Streamed<S>>)
    ensures Resume(before, match d case Fail(f) => Fail(f) case Pass(x) => Pass(x.(points := [s] + x.points))) ==
            Resume(before + [s], d)
  {
    if d.Pass? { assert before + ([s] + d.value.points) == before + [s] + d.value.points; }
  }
}
