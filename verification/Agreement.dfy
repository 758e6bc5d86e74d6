/** The two drivers agree: on a complete stream the streaming driver accepts exactly when the
    batch driver accepts the same recording and every call group is one exported call in first
    place; and then they report the same. Deferring the `() -> ()` question to the end of the
    stream is what makes this true although the batch driver answers it from its first call. */
module Agreement {
  import opened Wrappers
  import opened Crossings
  import opened ReplaySpec
  import opened Faithful

  function Plain(r: Replayer): Replayer { r.(deferred := None) }

  // ---- from the streaming driver to the batch driver ----------------------------

  /** A call served against a prefix of the recording, classified or not needing to be, is
      served the same way against the whole. */
  lemma {:induction false} ServeWhole<S>(m: Module<S>, part: Recording, whole: Recording, r: Replayer, s: S, i: nat, args: seq<Bits>)
    requires Typed(m, i, args) && part.crossings <= whole.crossings && (part.marked ==> whole.marked)
    requires r.err.None?
    ensures var served := ServiceImport(m, part, true, r, s, i, args);
            served.r.err.None? && (whole.marked && !part.marked ==> served.r.deferred.None?) ==>
              ServiceImport(m, whole, false, Plain(r), s, i, args) == served.(r := Plain(served.r))
  {}

  /** Neither an error nor a deferred question is ever forgotten. */
  lemma {:induction false} RunSticks<S>(m: Module<S>, rec: Recording, defer: bool, r: Replayer, s: S, fuel: nat)
    ensures var ran := RunGuest(m, rec, defer, r, s, fuel);
            (r.err.Some? ==> ran.r.err.Some?) && (r.deferred.Some? ==> ran.r.deferred.Some?)
    decreases fuel
  {
    if fuel > 0 && m.act(s).Calls? && Typed(m, m.act(s).index, m.act(s).args) {
      var served := ServiceImport(m, rec, defer, r, s, m.act(s).index, m.act(s).args);
      RunSticks(m, rec, defer, served.r, m.resume(served.guest, served.results), fuel - 1);
    }
  }

  lemma {:induction false} RunWhole<S>(m: Module<S>, part: Recording, whole: Recording, r: Replayer, s: S, fuel: nat)
    requires part.crossings <= whole.crossings && (part.marked ==> whole.marked) && r.err.None?
    ensures var ran := RunGuest(m, part, true, r, s, fuel);
            ran.r.err.None? && (whole.marked && !part.marked ==> ran.r.deferred.None?) ==>
              RunGuest(m, whole, false, Plain(r), s, fuel) == ran.(r := Plain(ran.r))
    decreases fuel
  {
    hide ServiceImport;
    if fuel > 0 && m.act(s).Calls? && Typed(m, m.act(s).index, m.act(s).args) {
      var i, args := m.act(s).index, m.act(s).args;
      var served := ServiceImport(m, part, true, r, s, i, args);
      var next := m.resume(served.guest, served.results);
      RunSticks(m, part, true, served.r, next, fuel - 1);
      ServeWhole(m, part, whole, r, s, i, args);
      if served.r.err.None? { RunWhole(m, part, whole, served.r, next, fuel - 1); }
    }
  }

  lemma {:induction false} CallWhole<S>(m: Module<S>, part: Recording, whole: Recording, r: Replayer, s: S, c: Crossing, fuel: nat)
    requires part.crossings <= whole.crossings && (part.marked ==> whole.marked) && r.err.None?
    ensures var called := CallExport(m, part, true, r, s, c, fuel);
            called.Pass? ==>
              && called.value.r.err.None?
              && (r.deferred.Some? ==> called.value.r.deferred.Some?)
              && ((whole.marked && !part.marked ==> called.value.r.deferred.None?) ==>
                    CallExport(m, whole, false, Plain(r), s, c, fuel) == Pass(Called(Plain(called.value.r), called.value.guest)))
  {
    hide RunGuest;
    if c.name in m.exports && DecodeTuple(m.decode, c.args, m.exports[c.name].params).Some? {
      var args := DecodeTuple(m.decode, c.args, m.exports[c.name].params).value;
      var entered := r.(cursor := r.cursor + 1, exportCalls := r.exportCalls + 1);
      assert Plain(r).(cursor := r.cursor + 1, exportCalls := r.exportCalls + 1) == Plain(entered);
      RunWhole(m, part, whole, entered, m.enter(s, c.name, args), fuel);
      RunSticks(m, part, true, entered, m.enter(s, c.name, args), fuel);
    }
  }

  /** The exported call of a well-shaped group is its only one. */
  lemma {:induction false} GroupExports(cs: seq<Crossing>, base: nat, end: nat)
    requires base < end <= |cs| && GroupShape(cs[base..end])
    ensures TopLevelFrom(cs, base) == [cs[base]] + TopLevelFrom(cs, end)
  {
    assert cs[base..end][0] == cs[base];
    forall k | base < k < end ensures !TopLevelExport(cs[k]) { assert cs[base..end][k - base] == cs[k]; }
    NoExports(cs, base + 1, end);
  }

  lemma {:induction false} NoExports(cs: seq<Crossing>, a: nat, b: nat)
    requires a <= b <= |cs| && forall k :: a <= k < b ==> !TopLevelExport(cs[k])
    ensures TopLevelFrom(cs, a) == TopLevelFrom(cs, b)
    decreases b - a
  {
    if a < b {
      NoExports(cs, a + 1, b);
      assert [] + TopLevelFrom(cs, a + 1) == TopLevelFrom(cs, a + 1);
    }
  }

  /** What the streaming driver has appended when it is done. */
  lemma {:induction false} DriveGroupsRecording<S>(m: Module<S>, rec: Recording, r: Replayer, s: S, groups: seq<seq<Crossing>>, fuel: nat)
    requires DriveGroups(m, rec, r, s, groups, fuel).Pass? && r.err.None?
    ensures var d := DriveGroups(m, rec, r, s, groups, fuel).value;
            && d.rec.crossings == rec.crossings + Concat(groups)
            && d.rec.marked == (rec.marked || AnyMarked(Concat(groups)))
            && (r.deferred.Some? ==> d.r.deferred.Some?)
            && !HasNested(Concat(groups))
            && forall k :: 0 <= k < |groups| ==> GroupShape(groups[k])
    decreases |groups|
  {
    hide CallExport;
    if groups == [] {
      assert rec.crossings + [] == rec.crossings;
    } else {
      var rec1 := AppendGroup(rec, groups[0]).value;
      var c := rec1.crossings[|rec.crossings|];
      CallWhole(m, rec1, rec1, r, s, c, fuel);
      var called := CallExport(m, rec1, true, r, s, c, fuel).value;
      DriveGroupsRecording(m, rec1, called.r, called.guest, groups[1..], fuel);
      assert rec.crossings + groups[0] + Concat(groups[1..]) == rec.crossings + Concat(groups);
      MarkedAppend(groups[0], Concat(groups[1..]));
      NestedAppend(groups[0], Concat(groups[1..]));
    }
  }

  lemma {:induction false} MarkedAppend(a: seq<Crossing>, b: seq<Crossing>)
    ensures AnyMarked(a + b) <==> AnyMarked(a) || AnyMarked(b)
  {
    if AnyMarked(a) {
      var i :| 0 <= i < |a| && a[i].marked;
      assert (a + b)[i].marked;
    }
    if AnyMarked(b) {
      var i :| 0 <= i < |b| && b[i].marked;
      assert (a + b)[|a| + i].marked;
    }
  }

  lemma {:induction false} NestedAppend(a: seq<Crossing>, b: seq<Crossing>)
    ensures HasNested(a + b) <==> HasNested(a) || HasNested(b)
  {
    if HasNested(a) {
      var i :| 0 <= i < |a| && NestedExport(a[i]);
      assert NestedExport((a + b)[i]);
    }
    if HasNested(b) {
      var i :| 0 <= i < |b| && NestedExport(b[i]);
      assert NestedExport((a + b)[|a| + i]);
    }
  }

  /** Every call driven from the growing recording is driven the same from any recording that
      continues it, provided no question deferred meanwhile would be answered strictly. */
  lemma {:induction false} DriveWhole<S>(m: Module<S>, rec: Recording, whole: Recording, r: Replayer, s: S,
                                         groups: seq<seq<Crossing>>, fuel: nat)
    requires DriveGroups(m, rec, r, s, groups, fuel).Pass? && r.err.None?
    requires rec.crossings + Concat(groups) <= whole.crossings
    requires var d := DriveGroups(m, rec, r, s, groups, fuel).value;
             (d.rec.marked ==> whole.marked) && (whole.marked ==> d.r.deferred.None?)
    ensures var d := DriveGroups(m, rec, r, s, groups, fuel).value;
            var exports := TopLevelFrom(rec.crossings + Concat(groups), |rec.crossings|);
            && |exports| == |groups| && CheckExports(m, exports).Pass?
            && Drive(m, whole, Plain(r), s, exports, fuel) == Pass(Driven(Plain(d.r), d.points))
            && d.r.err.None?
    decreases |groups|
  {
    hide CallExport;
    hide CheckExport;
    if groups != [] {
      var rec1 := AppendGroup(rec, groups[0]).value;
      var c := rec1.crossings[|rec.crossings|];
      var called := CallExport(m, rec1, true, r, s, c, fuel).value;
      var d := DriveGroups(m, rec, r, s, groups, fuel).value;
      var all, base, end := rec.crossings + Concat(groups), |rec.crossings|, |rec1.crossings|;
      assert all == rec1.crossings + Concat(groups[1..]);
      CallWhole(m, rec1, rec1, r, s, c, fuel);
      DriveGroupsRecording(m, rec1, called.r, called.guest, groups[1..], fuel);
      CallWhole(m, rec1, whole, r, s, c, fuel);
      DriveWhole(m, rec1, whole, called.r, called.guest, groups[1..], fuel);
      assert all[base..end] == groups[0];
      GroupExports(all, base, end);
      assert TopLevelFrom(all, base)[1..] == TopLevelFrom(all, end);
    }
  }

  // ---- from the batch driver to the streaming driver ----------------------------

  /** An import crossing without values is bracketed by markers, as the assembler ensures. */
  ghost predicate WitnessedAll(cs: seq<Crossing>) {
    forall i :: 0 <= i < |cs| && cs[i].kind.Import? && cs[i].args == [] && cs[i].results == [] ==> cs[i].marked
  }

  /** `part` is `whole` up to the end of a call group. */
  ghost predicate PartOf(part: Recording, whole: Recording) {
    && part.crossings <= whole.crossings
    && (|part.crossings| < |whole.crossings| ==> whole.crossings[|part.crossings|].kind.Export?)
    && part.marked == AnyMarked(part.crossings) && whole.marked == AnyMarked(whole.crossings)
    && WitnessedAll(whole.crossings)
  }

  lemma {:induction false} PartMarked(part: Recording, whole: Recording)
    requires PartOf(part, whole) && part.marked
    ensures whole.marked
  {
    var i :| 0 <= i < |part.crossings| && part.crossings[i].marked;
    assert whole.crossings[i].marked;
  }

  /** A call the batch driver serves, the streaming driver serves the same way: the strict
      reading of a call without values finds its marker in the group being driven. */
  lemma {:induction false} ServePart<S>(m: Module<S>, part: Recording, whole: Recording, r: Replayer, s: S, i: nat, args: seq<Bits>)
    requires Typed(m, i, args) && PartOf(part, whole) && r.err.None? && r.cursor <= |part.crossings|
    ensures var served := ServiceImport(m, whole, false, Plain(r), s, i, args);
            var streamed := ServiceImport(m, part, true, r, s, i, args);
            served.r.err.None? ==>
              && streamed.(r := Plain(streamed.r)) == served && streamed.r.cursor <= |part.crossings|
              && (whole.marked ==> streamed.r.deferred == r.deferred)
  {
    var sig := m.imports[i];
    var served := ServiceImport(m, whole, false, Plain(r), s, i, args);
    if part.marked { PartMarked(part, whole); }
    if served.r.err.None? && !(Valueless(sig) && !whole.marked) {
      assert r.cursor < |part.crossings|;
      var c := whole.crossings[r.cursor];
      assert part.crossings[r.cursor] == c;
      if Valueless(sig) {
        assert c.marked;
        assert part.crossings[r.cursor].marked;
      }
    }
  }

  lemma {:induction false} RunPart<S>(m: Module<S>, part: Recording, whole: Recording, r: Replayer, s: S, fuel: nat)
    requires PartOf(part, whole) && r.err.None? && r.cursor <= |part.crossings|
    ensures var ran := RunGuest(m, whole, false, Plain(r), s, fuel);
            var streamed := RunGuest(m, part, true, r, s, fuel);
            ran.r.err.None? ==>
              && streamed.(r := Plain(streamed.r)) == ran && streamed.r.cursor <= |part.crossings|
              && (whole.marked ==> streamed.r.deferred == r.deferred)
    decreases fuel
  {
    hide ServiceImport;
    hide PartOf;
    if fuel > 0 && m.act(s).Calls? && Typed(m, m.act(s).index, m.act(s).args) {
      var i, args := m.act(s).index, m.act(s).args;
      var served := ServiceImport(m, whole, false, Plain(r), s, i, args);
      var streamed := ServiceImport(m, part, true, r, s, i, args);
      var next := m.resume(served.guest, served.results);
      RunSticks(m, whole, false, served.r, next, fuel - 1);
      ServePart(m, part, whole, r, s, i, args);
      if served.r.err.None? { RunPart(m, part, whole, streamed.r, next, fuel - 1); }
    }
  }

  lemma {:induction false} CallPart<S>(m: Module<S>, part: Recording, whole: Recording, r: Replayer, s: S, c: Crossing, fuel: nat)
    requires PartOf(part, whole) && r.err.None? && c.seqNo < |part.crossings|
    ensures var called := CallExport(m, whole, false, Plain(r), s, c, fuel);
            var streamed := CallExport(m, part, true, r, s, c, fuel);
            called.Pass? ==>
              && streamed.Pass? && streamed.value.guest == called.value.guest
              && Plain(streamed.value.r) == called.value.r && streamed.value.r.err.None?
              && (whole.marked ==> streamed.value.r.deferred == r.deferred)
  {
    hide RunGuest;
    hide PartOf;
    if c.name in m.exports && DecodeTuple(m.decode, c.args, m.exports[c.name].params).Some? && r.cursor == c.seqNo {
      var args := DecodeTuple(m.decode, c.args, m.exports[c.name].params).value;
      var entered := r.(cursor := r.cursor + 1, exportCalls := r.exportCalls + 1);
      assert Plain(r).(cursor := r.cursor + 1, exportCalls := r.exportCalls + 1) == Plain(entered);
      RunPart(m, part, whole, entered, m.enter(s, c.name, args), fuel);
    }
  }

  /** The recording `all`, cut after `end`, which is the end of a call group. */
  function Cut(all: seq<Crossing>, end: nat): Recording
    requires end <= |all|
  {
    Recording(all[..end], AnyMarked(all[..end]))
  }

  lemma {:induction false} DrivePart<S>(m: Module<S>, all: seq<Crossing>, base: nat, r: Replayer, s: S,
                                        groups: seq<seq<Crossing>>, fuel: nat)
    requires Numbered(all) && WitnessedAll(all) && !HasNested(all) && r.err.None?
    requires base <= |all| && all[base..] == Concat(groups)
    requires forall k :: 0 <= k < |groups| ==> GroupShape(groups[k])
    requires var whole := Recording(all, AnyMarked(all));
             && CheckExports(m, TopLevelFrom(all, base)).Pass?
             && Drive(m, whole, Plain(r), s, TopLevelFrom(all, base), fuel).Pass?
    ensures var whole := Recording(all, AnyMarked(all));
            var d := Drive(m, whole, Plain(r), s, TopLevelFrom(all, base), fuel).value;
            var streamed := DriveGroups(m, Cut(all, base), r, s, groups, fuel);
            && streamed.Pass? && Plain(streamed.value.r) == d.r && streamed.value.points == d.points
            && streamed.value.rec.crossings == all
            && (AnyMarked(all) ==> streamed.value.r.deferred == r.deferred)
    decreases |groups|
  {
    hide CallExport;
    hide CheckExport;
    var whole := Recording(all, AnyMarked(all));
    if groups == [] {
      assert all[..base] == all by { assert base == |all|; }
    } else {
      var end := base + |groups[0]|;
      assert all[base..end] == groups[0] by { assert all[base..][..|groups[0]|] == groups[0]; }
      assert all[end..] == Concat(groups[1..]) by { assert all[base..][|groups[0]|..] == all[end..]; }
      var part := Cut(all, end);
      GroupAppends(all, base, end);
      GroupExports(all, base, end);
      var exports := TopLevelFrom(all, base);
      assert exports[1..] == TopLevelFrom(all, end) && exports[0] == all[base] == part.crossings[base];
      NextGroupStarts(all, end, groups[1..]);
      CallPart(m, part, whole, r, s, all[base], fuel);
      var called := CallExport(m, part, true, r, s, all[base], fuel).value;
      DrivePart(m, all, end, called.r, called.guest, groups[1..], fuel);
    }
  }

  /** After a group comes the exported call of the next one, or nothing. */
  lemma {:induction false} NextGroupStarts(all: seq<Crossing>, end: nat, groups: seq<seq<Crossing>>)
    requires end <= |all| && all[end..] == Concat(groups) && WitnessedAll(all)
    requires forall k :: 0 <= k < |groups| ==> GroupShape(groups[k])
    ensures PartOf(Cut(all, end), Recording(all, AnyMarked(all)))
  {
    if groups != [] {
      assert all[end] == all[end..][0] == groups[0][0];
      assert GroupShape(groups[0]);
    }
  }

  /** Appending a group of the recording is accepted. */
  lemma {:induction false} GroupAppends(all: seq<Crossing>, base: nat, end: nat)
    requires base < end <= |all| && Numbered(all) && !HasNested(all) && GroupShape(all[base..end])
    ensures AppendGroup(Cut(all, base), all[base..end]) == Pass(Cut(all, end))
  {
    var group := all[base..end];
    forall i | 0 <= i < |group| ensures group[i].seqNo == base + i && !NestedExport(group[i]) { assert group[i] == all[base + i]; }
    assert all[..base] + group == all[..end];
    MarkedAppend(all[..base], group);
  }

  // ---- the theorems ----------------------------------------------------------------

  /** A whole replay: every exported call driven from the start, all crossings consumed. */
  lemma {:induction false} WholeReplay<S>(m: Module<S>, rec: Recording, fuel: nat)
    ensures var exports := TopLevelFrom(rec.crossings, 0);
            var d := Drive(m, rec, Idle(0), m.init, exports, fuel);
            var out := Replay(m, rec, 0, 0, None, fuel);
            && (out.Pass? <==>
                  && CheckExports(m, exports).Pass? && !HasNested(rec.crossings)
                  && d.Pass? && d.value.r.cursor == |rec.crossings|)
            && (out.Pass? ==> var r := d.value.r;
                  out.value == Report(r.exportCalls, r.importCalls, r.unchecked, 0, |exports|, d.value.points, r.cursor))
  {
    hide Drive;
    hide CheckExports;
    hide HasNested;
    var exports := TopLevelFrom(rec.crossings, 0);
    assert exports[0..|exports|] == exports;
  }

  lemma {:induction false} StreamedIsReplayed<S>(m: Module<S>, groups: seq<seq<Crossing>>, fuel: nat)
    requires StreamingReplay(m, groups, CleanEnd, fuel).Pass?
    ensures var all := Concat(groups);
            Replay(m, Recording(all, AnyMarked(all)), 0, 0, None, fuel) == StreamingReplay(m, groups, CleanEnd, fuel)
    ensures forall k :: 0 <= k < |groups| ==> GroupShape(groups[k])
  {
    hide Drive;
    hide DriveGroups;
    hide CheckExports;
    hide HasNested;
    hide Replay;
    hide GroupShape;
    hide AnyMarked;
    var all := Concat(groups);
    var whole, empty := Recording(all, AnyMarked(all)), Recording([], false);
    assert [] + all == all;
    DriveGroupsRecording(m, empty, Idle(0), m.init, groups, fuel);
    DriveWhole(m, empty, whole, Idle(0), m.init, groups, fuel);
    WholeReplay(m, whole, fuel);
  }

  lemma {:induction false} EmptyCut(all: seq<Crossing>)
    ensures all[0..] == all && Cut(all, 0) == Recording([], false)
  {}

  lemma {:induction false} ReplayedIsStreamed<S>(m: Module<S>, groups: seq<seq<Crossing>>, fuel: nat)
    requires Numbered(Concat(groups)) && WitnessedAll(Concat(groups))
    requires forall k :: 0 <= k < |groups| ==> GroupShape(groups[k])
    requires Replay(m, Recording(Concat(groups), AnyMarked(Concat(groups))), 0, 0, None, fuel).Pass?
    ensures StreamingReplay(m, groups, CleanEnd, fuel).Pass?
  {
    hide Drive;
    hide DriveGroups;
    hide CheckExports;
    hide HasNested;
    hide Replay;
    hide GroupShape;
    hide TopLevelFrom;
    hide AnyMarked;
    hide Numbered;
    hide WitnessedAll;
    var all := Concat(groups);
    var whole, empty := Recording(all, AnyMarked(all)), Recording([], false);
    WholeReplay(m, whole, fuel);
    EmptyCut(all);
    DrivePart(m, all, 0, Idle(0), m.init, groups, fuel);
    DriveGroupsRecording(m, empty, Idle(0), m.init, groups, fuel);
    assert [] + all == all;
  }

  /** On a complete stream the streaming driver accepts if and only if the batch driver accepts
      the whole recording and every call group is one exported call, in first place; and then
      the two reports are equal: calls, unchecked calls, quiescent states, everything. */
  lemma {:induction false} DriversAgree<S>(m: Module<S>, groups: seq<seq<Crossing>>, fuel: nat)
    requires Numbered(Concat(groups)) && WitnessedAll(Concat(groups))
    ensures var all := Concat(groups);
            var batch := Replay(m, Recording(all, AnyMarked(all)), 0, 0, None, fuel);
            var streamed := StreamingReplay(m, groups, CleanEnd, fuel);
            && (streamed.Pass? <==> batch.Pass? && forall k :: 0 <= k < |groups| ==> GroupShape(groups[k]))
            && (streamed.Pass? ==> streamed == batch)
  {
    hide Replay;
    hide StreamingReplay;
    hide GroupShape;
    hide AnyMarked;
    if StreamingReplay(m, groups, CleanEnd, fuel).Pass? {
      StreamedIsReplayed(m, groups, fuel);
    } else if forall k :: 0 <= k < |groups| ==> GroupShape(groups[k]) {
      if Replay(m, Recording(Concat(groups), AnyMarked(Concat(groups))), 0, 0, None, fuel).Pass? {
        ReplayedIsStreamed(m, groups, fuel);
      }
    }
  }

  /** A replay accepted from a truncated stream stands whatever the rest of the recording turns
      out to be, and whatever it says about import markers: the batch driver of any recording
      that continues the prefix drives the same calls through the same states. */
  lemma {:induction false} TruncatedReplayStands<S>(m: Module<S>, groups: seq<seq<Crossing>>, whole: Recording, fuel: nat)
    requires StreamingReplay(m, groups, TruncatedEnd, fuel).Pass?
    requires Concat(groups) <= whole.crossings && (AnyMarked(Concat(groups)) ==> whole.marked)
    ensures var report := StreamingReplay(m, groups, TruncatedEnd, fuel).value;
            var exports := TopLevelFrom(Concat(groups), 0);
            var d := Drive(m, whole, Idle(0), m.init, exports, fuel);
            && d.Pass? && d.value.points == report.points && d.value.r.cursor == report.cursor
            && d.value.r.exportCalls == report.exportCalls == |groups|
            && d.value.r.importCalls == report.importCalls && d.value.r.unchecked == report.unchecked
  {
    hide Drive;
    hide DriveGroups;
    var all, empty := Concat(groups), Recording([], false);
    assert [] + all == all;
    DriveGroupsRecording(m, empty, Idle(0), m.init, groups, fuel);
    DriveWhole(m, empty, whole, Idle(0), m.init, groups, fuel);
    DriveCounts(m, whole, Idle(0), m.init, TopLevelFrom(all, 0), fuel);
  }

  lemma {:induction false} DriveCounts<S>(m: Module<S>, rec: Recording, r: Replayer, s: S, exports: seq<Crossing>, fuel: nat)
    ensures var d := Drive(m, rec, r, s, exports, fuel);
            d.Pass? ==> d.value.r.exportCalls == r.exportCalls + |exports|
    decreases |exports|
  {
    hide CallExport;
    if exports != [] {
      CallCounts(m, rec, r, s, exports[0], fuel);
      var called := CallExport(m, rec, false, r, s, exports[0], fuel);
      if called.Pass? { DriveCounts(m, rec, called.value.r, called.value.guest, exports[1..], fuel); }
    }
  }

  lemma {:induction false} CallCounts<S>(m: Module<S>, rec: Recording, r: Replayer, s: S, c: Crossing, fuel: nat)
    ensures var called := CallExport(m, rec, false, r, s, c, fuel);
            called.Pass? ==> called.value.r.exportCalls == r.exportCalls + 1
  {
    hide RunGuest;
    if c.name in m.exports && DecodeTuple(m.decode, c.args, m.exports[c.name].params).Some? {
      var args := DecodeTuple(m.decode, c.args, m.exports[c.name].params).value;
      RunCounts(m, rec, r.(cursor := r.cursor + 1, exportCalls := r.exportCalls + 1), m.enter(s, c.name, args), fuel);
    }
  }

  lemma {:induction false} RunCounts<S>(m: Module<S>, rec: Recording, r: Replayer, s: S, fuel: nat)
    ensures RunGuest(m, rec, false, r, s, fuel).r.exportCalls == r.exportCalls
    decreases fuel
  {
    if fuel > 0 && m.act(s).Calls? && Typed(m, m.act(s).index, m.act(s).args) {
      var served := ServiceImport(m, rec, false, r, s, m.act(s).index, m.act(s).args);
      RunCounts(m, rec, served.r, m.resume(served.guest, served.results), fuel - 1);
    }
  }

  // ---- where the batch driver accepts more ------------------------------------------

  function AnyBits(v: RawValue, t: ScalarType): Option<Bits> { Some(0) }

  /** A guest whose export `f` calls import 0, of type `() -> i32`, once. */
  function OneCall(): Module<nat> {
    Module([Signature([], [I32])], map["f" := Signature([], [])], map[], AnyBits, 0,
           (s, name, args) => 0, s => if s == 0 then Calls(0, []) else Returns([]), (s, vs) => 1, (at, s) => Some(s))
  }

  /** The condition on groups is needed: an import recorded outside every exported call makes
      a group of its own, which the batch driver accepts and the streaming driver refuses. */
  lemma {:induction false} ImportOutsideCalls(v: RawValue)
    ensures var f := Crossing(0, 0, Export, "f", 0, [], [], false, false);
            var i := Crossing(1, 0, Import, "", 0, [], [v], true, false);
            && Replay(OneCall(), Recording([f, i], false), 0, 0, None, 3).Pass?
            && StreamingReplay(OneCall(), [[f], [i]], CleanEnd, 3).Fail?
  {
    var f := Crossing(0, 0, Export, "f", 0, [], [], false, false);
    var i := Crossing(1, 0, Import, "", 0, [], [v], true, false);
    var m, rec := OneCall(), Recording([f, i], false);
    assert TopLevelFrom([f, i], 2) == [] && TopLevelFrom([f, i], 1) == [] && TopLevelFrom([f, i], 0) == [f];
    DecodeOne(m.decode, v, I32, 0);
    var entered, done := Replayer(1, None, 1, 0, 0, None), Replayer(2, None, 1, 1, 0, None);
    assert ServiceImport(m, rec, false, entered, 0, 0, []) == Served(done, 0, [0]);
    assert RunGuest(m, rec, false, done, 1, 2) == Ran(done, 1, Finished([]));
    assert RunGuest(m, rec, false, entered, 0, 3) == Ran(done, 1, Finished([]));
    assert CallExport(m, rec, false, Idle(0), 0, f, 3) == Pass(Called(done, 1));
    assert [f][1..] == [] && CheckExports(m, [f]).Pass?;
    assert Drive(m, rec, done, 1, [], 3) == Pass(Driven(done, [1]));
    assert Drive(m, rec, Idle(0), 0, [f], 3).Pass?;
    WholeReplay(m, rec, 3);
    LoneImportRefused(m, f, i);
  }

  lemma {:induction false} DecodeOne(decode: (RawValue, ScalarType) -> Option<Bits>, v: RawValue, t: ScalarType, b: Bits)
    requires decode(v, t) == Some(b)
    ensures DecodeTuple(decode, [v], [t]) == Some([b])
  {
    assert [v][1..] == [] && [t][1..] == [];
    var none: seq<Bits> := [];
    assert DecodeTuple(decode, [v][1..], [t][1..]) == Some(none) && [b] + none == [b];
  }

  lemma {:induction false} LoneImportRefused(m: Module<nat>, f: Crossing, i: Crossing)
    requires i.kind.Import?
    ensures StreamingReplay(m, [[f], [i]], CleanEnd, 3).Fail?
  {
    assert !GroupShape([[f], [i]][1]);
    if StreamingReplay(m, [[f], [i]], CleanEnd, 3).Pass? { StreamedIsReplayed(m, [[f], [i]], 3); }
  }
}
