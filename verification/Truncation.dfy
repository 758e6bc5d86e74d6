/** When a replay of a stream that was cut short is accepted (internal/boundarylog/stream_replay.go:161-276):
    a `() -> ()` call in a recording that has not shown a marker yet cannot be classified. */
module Truncation {
  import opened Wrappers
  import opened Crossings
  import opened ReplaySpec
  import opened Faithful
  import opened Agreement
  import opened RangeReplay

  // ---- the `() -> ()` calls a guest makes -------------------------------------------

  /** How many imported calls without values one run of the guest makes. */
  function ValuelessRun<S>(m: Module<S>, rec: Recording, r: Replayer, s: S, fuel: nat): nat
    decreases fuel
  {
    if fuel == 0 || !m.act(s).Calls? || !Typed(m, m.act(s).index, m.act(s).args) then 0
    else
      var i, args := m.act(s).index, m.act(s).args;
      var served := ServiceImport(m, rec, false, r, s, i, args);
      (if Valueless(m.imports[i]) then 1 else 0)
      + ValuelessRun(m, rec, served.r, m.resume(served.guest, served.results), fuel - 1)
  }

  function ValuelessCall<S>(m: Module<S>, rec: Recording, r: Replayer, s: S, c: Crossing, fuel: nat): nat {
    if c.name !in m.exports then 0
    else
      match DecodeTuple(m.decode, c.args, m.exports[c.name].params)
      case None => 0
      case Some(args) =>
        var entered := r.(cursor := r.cursor + 1, exportCalls := r.exportCalls + 1);
        ValuelessRun(m, rec, entered, m.enter(s, c.name, args), fuel)
  }

  /** How many the exported calls `exports` make, one after the other. */
  function ValuelessCalls<S>(m: Module<S>, rec: Recording, r: Replayer, s: S, exports: seq<Crossing>, fuel: nat): nat
    decreases |exports|
  {
    if exports == [] then 0
    else
      ValuelessCall(m, rec, r, s, exports[0], fuel)
      + match CallExport(m, rec, false, r, s, exports[0], fuel)
        case Fail(_) => 0
        case Pass(called) => ValuelessCalls(m, rec, called.r, called.guest, exports[1..], fuel)
  }

  // ---- what is deferred ----------------------------------------------------------------

  /** From `r` to `t` a question was deferred exactly if a call went unchecked; in a recording with
      markers none did, and in a part without them every call without values did. */
  ghost predicate Defers(part: Recording, whole: Recording, r: Replayer, t: Replayer, valueless: nat) {
    && t.unchecked >= r.unchecked
    && (t.deferred.Some? <==> r.deferred.Some? || t.unchecked > r.unchecked)
    && (whole.marked ==> t.unchecked == r.unchecked)
    && (!part.marked ==> t.unchecked == r.unchecked + valueless)
  }

  lemma {:induction false} ServeDefers<S>(m: Module<S>, part: Recording, whole: Recording, r: Replayer, s: S, i: nat, args: seq<Bits>)
    requires Typed(m, i, args) && PartOf(part, whole) && r.err.None? && r.cursor <= |part.crossings|
    requires ServiceImport(m, whole, false, Plain(r), s, i, args).r.err.None?
    ensures Defers(part, whole, r, ServiceImport(m, part, true, r, s, i, args).r, if Valueless(m.imports[i]) then 1 else 0)
  {
    ServePart(m, part, whole, r, s, i, args);
    if part.marked { PartMarked(part, whole); }
  }

  lemma {:induction false} RunDefers<S>(m: Module<S>, part: Recording, whole: Recording, r: Replayer, s: S, fuel: nat)
    requires PartOf(part, whole) && r.err.None? && r.cursor <= |part.crossings|
    requires RunGuest(m, whole, false, Plain(r), s, fuel).r.err.None?
    ensures Defers(part, whole, r, RunGuest(m, part, true, r, s, fuel).r, ValuelessRun(m, whole, Plain(r), s, fuel))
    decreases fuel
  {
    hide ServiceImport;
    hide PartOf;
    if fuel > 0 && m.act(s).Calls? && Typed(m, m.act(s).index, m.act(s).args) {
      var i, args := m.act(s).index, m.act(s).args;
      var served := ServiceImport(m, whole, false, Plain(r), s, i, args);
      var streamed := ServiceImport(m, part, true, r, s, i, args);
      var next := m.resume(served.guest, served.results);
      RunSticks(m, whole, false, served.r, next, fuel - 1);
      ServePart(m, part, whole, r, s, i, args);
      ServeDefers(m, part, whole, r, s, i, args);
      RunDefers(m, part, whole, streamed.r, next, fuel - 1);
    }
  }

  lemma {:induction false} CallDefers<S>(m: Module<S>, part: Recording, whole: Recording, r: Replayer, s: S, c: Crossing, fuel: nat)
    requires PartOf(part, whole) && r.err.None? && c.seqNo < |part.crossings|
    requires CallExport(m, whole, false, Plain(r), s, c, fuel).Pass?
    ensures CallExport(m, part, true, r, s, c, fuel).Pass?
    ensures Defers(part, whole, r, CallExport(m, part, true, r, s, c, fuel).value.r, ValuelessCall(m, whole, Plain(r), s, c, fuel))
  {
    hide RunGuest;
    hide ValuelessRun;
    hide PartOf;
    CallPart(m, part, whole, r, s, c, fuel);
    var args := DecodeTuple(m.decode, c.args, m.exports[c.name].params).value;
    var entered := r.(cursor := r.cursor + 1, exportCalls := r.exportCalls + 1);
    assert Plain(r).(cursor := r.cursor + 1, exportCalls := r.exportCalls + 1) == Plain(entered);
    RunDefers(m, part, whole, entered, m.enter(s, c.name, args), fuel);
  }

  // ---- driving a prefix of the groups ------------------------------------------------------

  lemma {:induction false} CutMarked(all: seq<Crossing>, a: nat, b: nat)
    requires a <= b <= |all| && AnyMarked(all[..a])
    ensures AnyMarked(all[..b])
  {
    var i :| 0 <= i < |all[..a]| && all[..a][i].marked;
    assert all[..b][i].marked;
  }

  /** The first group is appended; its call comes first, and the next group's call after it. */
  lemma {:induction false} FirstGroup(all: seq<Crossing>, base: nat, groups: seq<seq<Crossing>>)
    requires Numbered(all) && WitnessedAll(all) && !HasNested(all) && groups != []
    requires base <= |all| && all[base..] == Concat(groups)
    requires forall k :: 0 <= k < |groups| ==> GroupShape(groups[k])
    ensures var mid := base + |groups[0]|;
            && base < mid <= |all| && all[mid..] == Concat(groups[1..])
            && AppendGroup(Cut(all, base), groups[0]) == Pass(Cut(all, mid))
            && TopLevelFrom(all, base) == [all[base]] + TopLevelFrom(all, mid)
            && PartOf(Cut(all, mid), Recording(all, AnyMarked(all)))
  {
    hide TopLevelFrom;
    hide Concat;
    hide GroupShape;
    var mid := base + |groups[0]|;
    assert GroupShape(groups[0]);
    assert groups[0] != [] by { NonEmptyGroup(groups[0]); }
    SplitConcat(all, base, groups);
    GroupAppends(all, base, mid);
    GroupExports(all, base, mid);
    NextGroupStarts(all, mid, groups[1..]);
  }

  lemma {:induction false} NonEmptyGroup(group: seq<Crossing>)
    requires GroupShape(group)
    ensures group != []
  {}

  lemma {:induction false} SplitConcat(all: seq<Crossing>, base: nat, groups: seq<seq<Crossing>>)
    requires groups != [] && base <= |all| && all[base..] == Concat(groups)
    ensures var mid := base + |groups[0]|;
            mid <= |all| && all[base..mid] == groups[0] && all[mid..] == Concat(groups[1..])
  {
    var mid := base + |groups[0]|;
    assert all[base..mid] == all[base..][..|groups[0]|];
    assert all[mid..] == all[base..][|groups[0]|..];
  }

  /** The exported call of each group. */
  function Firsts(groups: seq<seq<Crossing>>): (r: seq<Crossing>)
    requires AllShaped(groups)
    ensures |r| == |groups|
  {
    if groups == [] then [] else [groups[0][0]] + Firsts(groups[1..])
  }

  predicate AllShaped(groups: seq<seq<Crossing>>) { forall k :: 0 <= k < |groups| ==> GroupShape(groups[k]) }

  /** Groups at the front of a recording are driven as the batch driver drives their calls; what is
      deferred meanwhile is as `Defers` says of the part driven. */
  lemma {:induction false} DrivePrefix<S>(m: Module<S>, all: seq<Crossing>, base: nat, r: Replayer, s: S,
                                          groups: seq<seq<Crossing>>, later: seq<seq<Crossing>>, fuel: nat)
    requires Numbered(all) && WitnessedAll(all) && !HasNested(all) && r.err.None?
    requires base <= |all| && all[base..] == Concat(groups + later) && AllShaped(groups + later) && AllShaped(groups)
    requires CheckExports(m, Firsts(groups)).Pass?
    requires Drive(m, Recording(all, AnyMarked(all)), Plain(r), s, Firsts(groups), fuel).Pass?
    ensures var whole := Recording(all, AnyMarked(all));
            var end := base + |Concat(groups)|;
            var streamed := DriveGroups(m, Cut(all, base), r, s, groups, fuel);
            && end <= |all| && streamed.Pass? && streamed.value.rec == Cut(all, end)
            && Plain(streamed.value.r) == Drive(m, whole, Plain(r), s, Firsts(groups), fuel).value.r
            && Defers(Cut(all, end), whole, r, streamed.value.r, ValuelessCalls(m, whole, Plain(r), s, Firsts(groups), fuel))
    decreases |groups|
  {
    hide CallExport;
    hide CheckExport;
    hide ValuelessCall;
    hide AppendGroup;
    hide GroupShape;
    hide HasNested;
    hide TopLevelFrom;
    hide Numbered;
    hide WitnessedAll;
    hide PartOf;
    hide AnyMarked;
    if groups != [] {
      hide Drive;
      hide ValuelessCalls;
      hide DriveGroups;
      var whole, rest := Recording(all, AnyMarked(all)), groups[1..];
      assert (groups + later)[0] == groups[0] && (groups + later)[1..] == rest + later;
      FirstExport(all, base, groups + later);
      assert Firsts(groups)[0] == all[base] && Firsts(groups)[1..] == Firsts(rest);
      DriveFirst(m, whole, Plain(r), s, Firsts(groups), fuel);
      FirstGroup(all, base, groups + later);
      var mid := base + |groups[0]|;
      var part := Cut(all, mid);
      CallDefers(m, part, whole, r, s, all[base], fuel);
      CallPart(m, part, whole, r, s, all[base], fuel);
      var called := CallExport(m, part, true, r, s, all[base], fuel).value;
      DrivePrefix(m, all, mid, called.r, called.guest, rest, later, fuel);
      var end := base + |Concat(groups)|;
      if AnyMarked(all[..mid]) { CutMarked(all, mid, end); }
      GroupsFirst(m, Cut(all, base), r, s, groups, part, all[base], fuel);
    }
  }

  lemma {:induction false} DriveFirst<S>(m: Module<S>, rec: Recording, r: Replayer, s: S, exports: seq<Crossing>, fuel: nat)
    requires exports != [] && Drive(m, rec, r, s, exports, fuel).Pass?
    ensures var called := CallExport(m, rec, false, r, s, exports[0], fuel);
            && called.Pass? && Drive(m, rec, called.value.r, called.value.guest, exports[1..], fuel).Pass?
            && Drive(m, rec, r, s, exports, fuel).value.r ==
               Drive(m, rec, called.value.r, called.value.guest, exports[1..], fuel).value.r
            && ValuelessCalls(m, rec, r, s, exports, fuel) ==
               ValuelessCall(m, rec, r, s, exports[0], fuel)
               + ValuelessCalls(m, rec, called.value.r, called.value.guest, exports[1..], fuel)
  {}

  lemma {:induction false} GroupsFirst<S>(m: Module<S>, rec: Recording, r: Replayer, s: S,
                                          groups: seq<seq<Crossing>>, rec1: Recording, c: Crossing, fuel: nat)
    requires groups != [] && AppendGroup(rec, groups[0]) == Pass(rec1) && |rec.crossings| < |rec1.crossings|
    requires c == rec1.crossings[|rec.crossings|] && CheckExport(m, c).Pass?
    requires CallExport(m, rec1, true, r, s, c, fuel).Pass?
    ensures var called := CallExport(m, rec1, true, r, s, c, fuel).value;
            var later := DriveGroups(m, rec1, called.r, called.guest, groups[1..], fuel);
            later.Pass? ==> DriveGroups(m, rec, r, s, groups, fuel) == Pass(later.value.(points := [s] + later.value.points))
  {}

  lemma {:induction false} FirstExport(all: seq<Crossing>, base: nat, groups: seq<seq<Crossing>>)
    requires groups != [] && base <= |all| && all[base..] == Concat(groups) && GroupShape(groups[0]) && Numbered(all)
    ensures base < |all| && groups[0] != [] && all[base] == groups[0][0] && all[base].seqNo == base
    ensures TopLevelFrom(all, base) != [] && TopLevelFrom(all, base)[0] == all[base]
  {
    SplitConcat(all, base, groups);
    GroupExports(all, base, base + |groups[0]|);
  }

  lemma {:induction false} ShapedTake(groups: seq<seq<Crossing>>, n: nat)
    requires n <= |groups| && AllShaped(groups)
    ensures AllShaped(groups[..n])
  {}

  /** Driving the first `n` groups of a recording that replays: the calls pass, and what is deferred. */
  lemma {:induction false} PrefixDriven<S>(m: Module<S>, groups: seq<seq<Crossing>>, n: nat, fuel: nat)
    requires Numbered(Concat(groups)) && WitnessedAll(Concat(groups)) && n <= |groups| && AllShaped(groups)
    requires Replay(m, Recording(Concat(groups), AnyMarked(Concat(groups))), 0, 0, None, fuel).Pass?
    ensures var all, prefix := Concat(groups), Concat(groups[..n]);
            var whole, exports := Recording(all, AnyMarked(all)), TopLevelFrom(all, 0);
            var streamed := DriveGroups(m, Recording([], false), Idle(0), m.init, groups[..n], fuel);
            && n <= |exports| && prefix <= all
            && streamed.Pass? && streamed.value.rec == Recording(prefix, AnyMarked(prefix))
            && Defers(Recording(prefix, AnyMarked(prefix)), whole, Idle(0), streamed.value.r,
                      ValuelessCalls(m, whole, Idle(0), m.init, exports[..n], fuel))
  {
    hide Drive;
    hide DriveGroups;
    hide CheckExports;
    hide HasNested;
    hide Replay;
    hide TopLevelFrom;
    hide ValuelessCalls;
    hide Numbered;
    hide WitnessedAll;
    hide AllShaped;
    hide Firsts;
    hide Concat;
    hide Defers;
    hide AnyMarked;
    var all := Concat(groups);
    var whole, exports := Recording(all, AnyMarked(all)), TopLevelFrom(all, 0);
    WholeReplay(m, whole, fuel);
    EmptyCut(all);
    FirstsAreExports(all, 0, groups);
    FirstsTake(groups, n);
    ShapedTake(groups, n);
    CheckTake(m, exports, n);
    DriveSplit(m, whole, Idle(0), m.init, exports, n, fuel);
    assert groups[..n] + groups[n..] == groups;
    DrivePrefix(m, all, 0, Idle(0), m.init, groups[..n], groups[n..], fuel);
    PrefixOfGroups(groups, n);
    assert all[..|Concat(groups[..n])|] == Concat(groups[..n]);
  }

  /** If the whole recording replays and its groups are one exported call each, the first `n` groups of
      it, cut short there, are accepted if and only if they hold a marker or their calls make no
      `() -> ()` import. */
  lemma {:induction false} TruncatedExactly<S>(m: Module<S>, groups: seq<seq<Crossing>>, n: nat, fuel: nat)
    requires Numbered(Concat(groups)) && WitnessedAll(Concat(groups)) && n <= |groups|
    requires forall k :: 0 <= k < |groups| ==> GroupShape(groups[k])
    requires Replay(m, Recording(Concat(groups), AnyMarked(Concat(groups))), 0, 0, None, fuel).Pass?
    ensures var all := Concat(groups);
            var whole, exports := Recording(all, AnyMarked(all)), TopLevelFrom(all, 0);
            && n <= |exports|
            && (StreamingReplay(m, groups[..n], TruncatedEnd, fuel).Pass? <==>
                  || AnyMarked(Concat(groups[..n]))
                  || ValuelessCalls(m, whole, Idle(0), m.init, exports[..n], fuel) == 0)
  {
    hide DriveGroups;
    hide Replay;
    hide TopLevelFrom;
    hide ValuelessCalls;
    hide Numbered;
    hide WitnessedAll;
    hide GroupShape;
    hide Concat;
    hide AnyMarked;
    var all, prefix := Concat(groups), Concat(groups[..n]);
    PrefixDriven(m, groups, n, fuel);
    if AnyMarked(prefix) {
      assert all[..|prefix|] == prefix && all[..|all|] == all;
      CutMarked(all, |prefix|, |all|);
    }
  }

  lemma {:induction false} FirstsAreExports(all: seq<Crossing>, base: nat, groups: seq<seq<Crossing>>)
    requires base <= |all| && all[base..] == Concat(groups) && AllShaped(groups)
    ensures TopLevelFrom(all, base) == Firsts(groups)
    decreases |groups|
  {
    if groups != [] {
      hide TopLevelFrom;
      hide GroupShape;
      var mid := base + |groups[0]|;
      NonEmptyGroup(groups[0]);
      SplitConcat(all, base, groups);
      GroupExports(all, base, mid);
      assert AllShaped(groups[1..]);
      FirstsAreExports(all, mid, groups[1..]);
      assert all[base] == all[base..mid][0];
    }
  }

  lemma {:induction false} FirstsTake(groups: seq<seq<Crossing>>, n: nat)
    requires n <= |groups| && AllShaped(groups)
    ensures Firsts(groups[..n]) == Firsts(groups)[..n]
    decreases n
  {
    if n > 0 {
      FirstsTake(groups[1..], n - 1);
      assert groups[..n][1..] == groups[1..][..n - 1];
    }
  }

  lemma {:induction false} CheckTake<S>(m: Module<S>, exports: seq<Crossing>, n: nat)
    requires n <= |exports| && CheckExports(m, exports).Pass?
    ensures CheckExports(m, exports[..n]).Pass?
    decreases n
  {
    if n > 0 {
      CheckTake(m, exports[1..], n - 1);
      assert exports[..n][1..] == exports[1..][..n - 1];
    }
  }

  lemma {:induction false} PrefixOfGroups(groups: seq<seq<Crossing>>, n: nat)
    requires n <= |groups|
    ensures Concat(groups[..n]) <= Concat(groups)
    decreases n
  {
    if n > 0 {
      PrefixOfGroups(groups[1..], n - 1);
      assert groups[..n][1..] == groups[1..][..n - 1];
    }
  }
}
