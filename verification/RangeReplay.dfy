/** Range replay is a slice of the whole: resumed in the exact state the whole replay had at a
    quiescent point, a range replay passes through the same states as the whole replay. */
module RangeReplay {
  import opened Wrappers
  import opened Crossings
  import opened ReplaySpec
  import opened Agreement

  /** What a replayer's future depends on: the cursor and the error, not the counters. */
  ghost predicate SameCore(a: Replayer, b: Replayer) { a.cursor == b.cursor && a.err == b.err }

  lemma {:induction false} RunSame<S>(m: Module<S>, rec: Recording, a: Replayer, b: Replayer, s: S, fuel: nat)
    requires SameCore(a, b)
    ensures var x, y := RunGuest(m, rec, false, a, s, fuel), RunGuest(m, rec, false, b, s, fuel);
            SameCore(x.r, y.r) && x.guest == y.guest && x.stop == y.stop
    decreases fuel
  {
    if fuel > 0 && m.act(s).Calls? && Typed(m, m.act(s).index, m.act(s).args) {
      var i, args := m.act(s).index, m.act(s).args;
      var x, y := ServiceImport(m, rec, false, a, s, i, args), ServiceImport(m, rec, false, b, s, i, args);
      assert x.guest == y.guest && x.results == y.results && SameCore(x.r, y.r);
      RunSame(m, rec, x.r, y.r, m.resume(x.guest, x.results), fuel - 1);
    }
  }

  lemma {:induction false} CallSame<S>(m: Module<S>, rec: Recording, a: Replayer, b: Replayer, s: S, c: Crossing, fuel: nat)
    requires SameCore(a, b)
    ensures var x, y := CallExport(m, rec, false, a, s, c, fuel), CallExport(m, rec, false, b, s, c, fuel);
            && x.Pass? == y.Pass?
            && (x.Pass? ==> SameCore(x.value.r, y.value.r) && x.value.guest == y.value.guest)
  {
    hide RunGuest;
    if c.name in m.exports && DecodeTuple(m.decode, c.args, m.exports[c.name].params).Some? {
      var args := DecodeTuple(m.decode, c.args, m.exports[c.name].params).value;
      RunSame(m, rec, a.(cursor := a.cursor + 1, exportCalls := a.exportCalls + 1),
              b.(cursor := b.cursor + 1, exportCalls := b.exportCalls + 1), m.enter(s, c.name, args), fuel);
    }
  }

  lemma {:induction false} DriveSame<S>(m: Module<S>, rec: Recording, a: Replayer, b: Replayer, s: S, exports: seq<Crossing>, fuel: nat)
    requires SameCore(a, b)
    ensures var x, y := Drive(m, rec, a, s, exports, fuel), Drive(m, rec, b, s, exports, fuel);
            && x.Pass? == y.Pass?
            && (x.Pass? ==> SameCore(x.value.r, y.value.r) && x.value.points == y.value.points)
    decreases |exports|
  {
    hide CallExport;
    if exports != [] {
      CallSame(m, rec, a, b, s, exports[0], fuel);
      var x, y := CallExport(m, rec, false, a, s, exports[0], fuel), CallExport(m, rec, false, b, s, exports[0], fuel);
      if x.Pass? { DriveSame(m, rec, x.value.r, y.value.r, x.value.guest, exports[1..], fuel); }
    }
  }

  /** Driving all the calls is driving the first `k` and then the others. */
  lemma {:induction false} DriveSplit<S>(m: Module<S>, rec: Recording, r: Replayer, s: S, exports: seq<Crossing>, k: nat, fuel: nat)
    requires k <= |exports| && Drive(m, rec, r, s, exports, fuel).Pass?
    ensures var d := Drive(m, rec, r, s, exports, fuel).value;
            var first := Drive(m, rec, r, s, exports[..k], fuel);
            && first.Pass? && first.value.points == d.points[..k + 1]
            && Drive(m, rec, first.value.r, d.points[k], exports[k..], fuel) == Pass(Driven(d.r, d.points[k..]))
    decreases k
  {
    hide CallExport;
    var d := Drive(m, rec, r, s, exports, fuel).value;
    if k == 0 {
      assert exports[..0] == [] && exports[0..] == exports && d.points[..1] == [s] && d.points[0..] == d.points;
    } else {
      var called := CallExport(m, rec, false, r, s, exports[0], fuel).value;
      DriveSplit(m, rec, called.r, called.guest, exports[1..], k - 1, fuel);
      assert exports[..k][1..] == exports[1..][..k - 1] && exports[1..][k - 1..] == exports[k..];
      var rest := Drive(m, rec, called.r, called.guest, exports[1..], fuel).value;
      assert d.points == [s] + rest.points;
      assert d.points[..k + 1] == [s] + rest.points[..k] && d.points[k..] == rest.points[k - 1..];
    }
  }

  /** The prefix driven up to point `k` leaves the cursor where a replay from `k` starts it. */
  lemma {:induction false} CursorAtPoint<S>(m: Module<S>, rec: Recording, exports: seq<Crossing>, k: nat, fuel: nat)
    requires k <= |exports| && Drive(m, rec, Idle(0), m.init, exports, fuel).Pass?
    requires Drive(m, rec, Idle(0), m.init, exports, fuel).value.r.cursor == |rec.crossings|
    ensures var first := Drive(m, rec, Idle(0), m.init, exports[..k], fuel);
            first.Pass? && first.value.r.err.None? && first.value.r.cursor == SeedCursor(rec, exports, k)
  {
    hide RunGuest;
    DriveSplit(m, rec, Idle(0), m.init, exports, k, fuel);
    var d := Drive(m, rec, Idle(0), m.init, exports, fuel).value;
    var first := Drive(m, rec, Idle(0), m.init, exports[..k], fuel).value;
    NoErr(m, rec, Idle(0), m.init, exports[..k], fuel);
    if k < |exports| {
      assert exports[k..][0] == exports[k];
      assert CallExport(m, rec, false, first.r, d.points[k], exports[k], fuel).Pass?;
    } else {
      assert exports[..k] == exports;
    }
    if k == 0 { assert exports[..0] == []; }
  }

  lemma {:induction false} NoErr<S>(m: Module<S>, rec: Recording, r: Replayer, s: S, exports: seq<Crossing>, fuel: nat)
    requires r.err.None?
    ensures var d := Drive(m, rec, r, s, exports, fuel); d.Pass? ==> d.value.r.err.None?
    decreases |exports|
  {
    hide RunGuest;
    if exports != [] {
      var called := CallExport(m, rec, false, r, s, exports[0], fuel);
      if called.Pass? { NoErr(m, rec, called.value.r, called.value.guest, exports[1..], fuel); }
    }
  }

  /** How many exported calls a recording holds that the host made itself. */
  function ExportedCalls(cs: seq<Crossing>): nat
  {
    if cs == [] then 0
    else ExportedCalls(cs[..|cs| - 1]) + if cs[|cs| - 1].kind.Export? && cs[|cs| - 1].depth == 0 then 1 else 0
  }

  lemma {:induction false} CountsExports(cs: seq<Crossing>, i: nat)
    requires i <= |cs|
    ensures |TopLevelFrom(cs, i)| == ExportedCalls(cs) - ExportedCalls(cs[..i])
    decreases |cs| - i
  {
    if i == |cs| {
      assert cs[..i] == cs;
    } else {
      CountsExports(cs, i + 1);
      assert cs[..i + 1][..i] == cs[..i];
    }
  }

  /** A range ends at the end of the recording unless it says otherwise. */
  function RangeEnd(toPoint: int, calls: nat): int { if toPoint == 0 then calls else toPoint }

  lemma {:induction false} ChecksHold<S>(m: Module<S>, exports: seq<Crossing>)
    requires CheckExports(m, exports).Pass?
    ensures forall k :: 0 <= k < |exports| ==> CheckExport(m, exports[k]).Pass?
    decreases |exports|
  {
    hide CheckExport;
    if exports != [] {
      ChecksHold(m, exports[1..]);
      assert forall k :: 0 < k < |exports| ==> exports[k] == exports[1..][k - 1];
    }
  }

  lemma {:induction false} ListedExport(cs: seq<Crossing>, i: nat, k: nat)
    requires i <= k < |cs| && TopLevelExport(cs[k])
    ensures cs[k] in TopLevelFrom(cs, i)
    decreases k - i
  {
    if i < k { ListedExport(cs, i + 1, k); }
  }

  /** Whatever range is asked for, a replay that is accepted was asked for points that exist, in order, and
      with a state to resume from unless it starts at the beginning; and in the whole recording, also
      outside the range, no exported call is nested and each is one the module and the manifest allow. */
  lemma {:induction false} AcceptedRange<S>(m: Module<S>, rec: Recording, fromPoint: int, toPoint: int, resume: Option<S>, fuel: nat)
    requires Replay(m, rec, fromPoint, toPoint, resume, fuel).Pass?
    ensures 0 <= fromPoint <= RangeEnd(toPoint, ExportedCalls(rec.crossings)) <= ExportedCalls(rec.crossings)
    ensures fromPoint > 0 ==> resume.Some?
    ensures forall k :: 0 <= k < |rec.crossings| && rec.crossings[k].kind.Export? ==>
              var c := rec.crossings[k];
              && c.depth == 0 && c.name != "" && c.name in m.exports
              && (c.name in m.manifest ==> m.manifest[c.name] == Some(m.exports[c.name]))
              && |c.args| == |m.exports[c.name].params|
              && (m.exports[c.name].results != [] ==> c.hasResults)
  {
    hide Drive;
    hide CheckExports;
    hide TopLevelFrom;
    var exports := TopLevelFrom(rec.crossings, 0);
    CountsExports(rec.crossings, 0);
    assert rec.crossings[..0] == [];
    ChecksHold(m, exports);
    forall k | 0 <= k < |rec.crossings| && rec.crossings[k].kind.Export?
      ensures rec.crossings[k].depth == 0 && CheckExport(m, rec.crossings[k]).Pass?
    {
      assert !NestedExport(rec.crossings[k]);
      ListedExport(rec.crossings, 0, k);
    }
  }

  /** If the whole recording replays, a range replays, resumed in the exact state at its start, if and only
      if its points exist in order and there is that state to resume from: its cursor starts where the
      whole replay had it, it drives exactly the calls of the range, and it passes through the same
      states at every quiescent point of the range, the last one included. */
  lemma {:induction false} RangeIsSlice<S>(m: Module<S>, rec: Recording, fromPoint: int, toPoint: int, resume: Option<S>, fuel: nat)
    requires Replay(m, rec, 0, 0, None, fuel).Pass?
    requires var whole := Replay(m, rec, 0, 0, None, fuel).value;
             0 < fromPoint < |whole.points| && resume.Some? ==> resume.value == whole.points[fromPoint]
    ensures var whole := Replay(m, rec, 0, 0, None, fuel).value;
            var calls := ExportedCalls(rec.crossings);
            var end := RangeEnd(toPoint, calls);
            var part := Replay(m, rec, fromPoint, toPoint, resume, fuel);
            && |whole.points| == calls + 1
            && (part.Pass? <==> 0 <= fromPoint <= end <= calls && (fromPoint > 0 ==> resume.Some?))
            && (part.Pass? ==>
                  && part.value.fromPoint == fromPoint && part.value.toPoint == end
                  && part.value.exportCalls == end - fromPoint
                  && part.value.points == whole.points[fromPoint..end + 1]
                  && (end == calls ==> part.value.cursor == whole.cursor))
  {
    hide Drive;
    hide CheckExports;
    hide HasNested;
    hide SeedCursor;
    hide TopLevelFrom;
    WholeReplay(m, rec, fuel);
    var whole := Replay(m, rec, 0, 0, None, fuel).value;
    var exports := TopLevelFrom(rec.crossings, 0);
    CountsExports(rec.crossings, 0);
    assert rec.crossings[..0] == [];
    var k, n := fromPoint, RangeEnd(toPoint, |exports|);
    if Replay(m, rec, fromPoint, toPoint, resume, fuel).Pass? {
      AcceptedRange(m, rec, fromPoint, toPoint, resume, fuel);
    }
    if 0 <= k <= n <= |exports| && (k > 0 ==> resume.Some?) {
      DriveRange(m, rec, exports, k, n, fuel);
    }
  }

  lemma {:induction false} DriveRange<S>(m: Module<S>, rec: Recording, exports: seq<Crossing>, k: nat, n: nat, fuel: nat)
    requires k <= n <= |exports| && Drive(m, rec, Idle(0), m.init, exports, fuel).Pass?
    requires Drive(m, rec, Idle(0), m.init, exports, fuel).value.r.cursor == |rec.crossings|
    ensures var d := Drive(m, rec, Idle(0), m.init, exports, fuel).value;
            var part := Drive(m, rec, Idle(SeedCursor(rec, exports, k)), d.points[k], exports[k..n], fuel);
            && part.Pass? && part.value.points == d.points[k..n + 1] && part.value.r.exportCalls == n - k
            && (n == |exports| ==> part.value.r.cursor == |rec.crossings|)
  {
    hide Drive;
    hide SeedCursor;
    var d := Drive(m, rec, Idle(0), m.init, exports, fuel).value;
    CursorAtPoint(m, rec, exports, k, fuel);
    DriveSplit(m, rec, Idle(0), m.init, exports, k, fuel);
    var first := Drive(m, rec, Idle(0), m.init, exports[..k], fuel).value;
    var seed := Idle(SeedCursor(rec, exports, k));
    DriveSame(m, rec, first.r, seed, d.points[k], exports[k..], fuel);
    DriveSplit(m, rec, seed, d.points[k], exports[k..], n - k, fuel);
    assert exports[k..][..n - k] == exports[k..n];
    assert d.points[k..][..n - k + 1] == d.points[k..n + 1];
    assert n == |exports| ==> exports[k..n] == exports[k..];
    DriveCounts(m, rec, seed, d.points[k], exports[k..n], fuel);
  }
}
