/** Acceptance is faithful: a whole replay succeeds if and only if the guest has an execution
    whose boundary crossings, in order, are the recorded ones position by position (with its
    `() -> ()` imported calls erased when the recording's markers do not name imports). */
module Faithful {
  import opened Wrappers
  import opened Crossings
  import opened ReplaySpec

  // ---- executions of the guest, without any recording ------------------------

  /** One imported call the guest makes, what the host answers, and at which crossing number
      the host's writes happened (None: the host wrote nothing). */
  datatype ImportEvent = ImportEvent(index: nat, args: seq<Bits>, results: seq<Bits>, at: Option<nat>)

  datatype ExportEvent = ExportEvent(name: string, args: seq<Bits>, results: seq<Bits>, imports: seq<ImportEvent>)

  function HostWrites<S>(m: Module<S>, at: Option<nat>, s: S): Option<S> {
    if at.None? then Some(s) else m.mutate(at.value, s)
  }

  /** From state `s` the guest makes exactly the imported calls `evs` and returns `vs` in `s'`. */
  ghost predicate GuestCall<S>(m: Module<S>, s: S, evs: seq<ImportEvent>, vs: seq<Bits>, s': S)
    decreases |evs|
  {
    match m.act(s)
    case Returns(v) => evs == [] && v == vs && s' == s
    case Traps => false
    case Calls(i, args) =>
      && i < |m.imports| && |args| == |m.imports[i].params| && evs != [] && evs[0].index == i && evs[0].args == args
      && HostWrites(m, evs[0].at, s).Some?
      && GuestCall(m, m.resume(HostWrites(m, evs[0].at, s).value, evs[0].results), evs[1..], vs, s')
  }

  /** The exported calls `ex`, one after the other, through the quiescent states `points`. */
  ghost predicate Execution<S>(m: Module<S>, ex: seq<ExportEvent>, points: seq<S>) {
    && |points| == |ex| + 1
    && forall k :: 0 <= k < |ex| ==> ExecutionAt(m, ex, points, k)
  }

  ghost predicate ExecutionAt<S>(m: Module<S>, ex: seq<ExportEvent>, points: seq<S>, k: nat) {
    && k < |ex| && |points| == |ex| + 1
    && GuestCall(m, m.enter(points[k], ex[k].name, ex[k].args), ex[k].imports, ex[k].results, points[k + 1])
  }

  // ---- the crossings of an execution, and when a recording shows them ---------

  datatype Made =
    | MadeExport(name: string, args: seq<Bits>, results: seq<Bits>)
    | MadeImport(call: ImportEvent)

  /** The host writes accompany exactly the recorded calls: the others are the erased ones. */
  predicate Shown(made: Made) { made.MadeExport? || made.call.at.Some? }

  function ImportsMade(evs: seq<ImportEvent>): seq<Made> {
    if evs == [] then [] else [MadeImport(evs[0])] + ImportsMade(evs[1..])
  }

  /** All crossings of an execution, in call order. */
  function AllMade(ex: seq<ExportEvent>): seq<Made> {
    if ex == [] then []
    else [MadeExport(ex[0].name, ex[0].args, ex[0].results)] + ImportsMade(ex[0].imports) + AllMade(ex[1..])
  }

  function Keep(made: seq<Made>): seq<Made> {
    if made == [] then []
    else (if Shown(made[0]) then [made[0]] else []) + Keep(made[1..])
  }

  function ErasedCount(made: seq<Made>): nat {
    if made == [] then 0 else (if Shown(made[0]) then 0 else 1) + ErasedCount(made[1..])
  }

  /** Crossing `c` records an exported call of this name, arguments and results. */
  ghost predicate ShowsExport<S>(m: Module<S>, c: Crossing, name: string, args: seq<Bits>, results: seq<Bits>) {
    && c.kind.Export? && c.depth == 0 && c.name == name && name != "" && name in m.exports
    && (name in m.manifest ==> m.manifest[name] == Some(m.exports[name]))
    && Decodes(m.decode, c.args, m.exports[name].params, args)
    && Decodes(m.decode, c.results, m.exports[name].results, results)
    && (m.exports[name].results != [] ==> c.hasResults)
  }

  /** Crossing `c` records an imported call of this index, arguments and results. */
  ghost predicate ShowsImport<S>(m: Module<S>, c: Crossing, e: ImportEvent) {
    && c.kind.Import? && c.index == e.index && e.index < |m.imports|
    && Decodes(m.decode, c.args, m.imports[e.index].params, e.args)
    && Decodes(m.decode, c.results, m.imports[e.index].results, e.results)
    && (m.imports[e.index].results != [] ==> c.hasResults)
  }

  /** Position `p` of the recording shows `made`, and the host's writes are those of `p`. */
  ghost predicate Shows<S>(m: Module<S>, rec: Recording, made: Made, p: nat) {
    && p < |rec.crossings|
    && match made
       case MadeExport(name, args, results) => ShowsExport(m, rec.crossings[p], name, args, results)
       case MadeImport(e) => e.at == Some(p) && ShowsImport(m, rec.crossings[p], e)
  }

  /** Which imported calls a recording shows: all of them if its markers name imports, else
      all but the calls without values. */
  ghost predicate RightlyErased<S>(m: Module<S>, rec: Recording, e: ImportEvent) {
    && e.index < |m.imports|
    && (e.at.None? <==> m.imports[e.index] == Signature([], []) && !rec.marked)
    && (e.at.None? ==> e.results == [])
  }

  ghost predicate RightlyErasedMade<S>(m: Module<S>, rec: Recording, made: Made) {
    made.MadeImport? ==> RightlyErased(m, rec, made.call)
  }

  /** The recording is the recording of `ex`. */
  ghost predicate RecordingOf<S>(m: Module<S>, rec: Recording, ex: seq<ExportEvent>) {
    var kept := Keep(AllMade(ex));
    && |kept| == |rec.crossings|
    && ShowsAll(m, rec, kept, 0)
    && AllRightlyErased(m, rec, AllMade(ex))
  }

  /** Position `p + k` shows `kept[k]`, for every `k`. */
  ghost predicate ShowsAll<S>(m: Module<S>, rec: Recording, kept: seq<Made>, p: nat) {
    forall k :: 0 <= k < |kept| ==> Shows(m, rec, kept[k], p + k)
  }

  ghost predicate AllRightlyErased<S>(m: Module<S>, rec: Recording, made: seq<Made>) {
    forall k :: 0 <= k < |made| ==> RightlyErasedMade(m, rec, made[k])
  }

  // ---- the same, followed with a cursor ----------------------------------------

  /** `made` is shown from position `p` on, up to position `q`. */
  ghost predicate ShownFrom<S>(m: Module<S>, rec: Recording, made: seq<Made>, p: nat, q: nat) {
    if made == [] then p == q
    else
      && RightlyErasedMade(m, rec, made[0])
      && if Shown(made[0]) then Shows(m, rec, made[0], p) && ShownFrom(m, rec, made[1..], p + 1, q)
         else ShownFrom(m, rec, made[1..], p, q)
  }

  lemma {:induction false} ShownFromAppend<S>(m: Module<S>, rec: Recording, a: seq<Made>, b: seq<Made>, p: nat, q: nat, r: nat)
    requires ShownFrom(m, rec, a, p, q) && ShownFrom(m, rec, b, q, r)
    ensures ShownFrom(m, rec, a + b, p, r)
    decreases |a|
  {
    if a == [] {
      assert a + b == b;
    } else {
      assert (a + b)[1..] == a[1..] + b && (a + b)[0] == a[0];
      if Shown(a[0]) { ShownFromAppend(m, rec, a[1..], b, p + 1, q, r); }
      else { ShownFromAppend(m, rec, a[1..], b, p, q, r); }
    }
  }

  lemma {:induction false} ShownFromSplit<S>(m: Module<S>, rec: Recording, a: seq<Made>, b: seq<Made>, p: nat, r: nat) returns (q: nat)
    requires ShownFrom(m, rec, a + b, p, r)
    ensures ShownFrom(m, rec, a, p, q) && ShownFrom(m, rec, b, q, r)
    decreases |a|
  {
    if a == [] {
      assert a + b == b;
      q := p;
    } else {
      assert (a + b)[1..] == a[1..] + b && (a + b)[0] == a[0];
      if Shown(a[0]) { q := ShownFromSplit(m, rec, a[1..], b, p + 1, r); }
      else { q := ShownFromSplit(m, rec, a[1..], b, p, r); }
    }
  }

  lemma {:induction false} ShowsCons<S>(m: Module<S>, rec: Recording, x: Made, rest: seq<Made>, p: nat)
    ensures ShowsAll(m, rec, [x] + rest, p) <==> Shows(m, rec, x, p) && ShowsAll(m, rec, rest, p + 1)
  {
    var all := [x] + rest;
    if ShowsAll(m, rec, all, p) {
      assert Shows(m, rec, all[0], p + 0);
      forall k | 0 <= k < |rest| ensures Shows(m, rec, rest[k], p + 1 + k) {
        assert Shows(m, rec, all[k + 1], p + (k + 1));
      }
    }
    if Shows(m, rec, x, p) && ShowsAll(m, rec, rest, p + 1) {
      forall k | 0 <= k < |all| ensures Shows(m, rec, all[k], p + k) {
        if k > 0 { assert Shows(m, rec, rest[k - 1], p + 1 + (k - 1)); }
      }
    }
  }

  lemma {:induction false} ErasedCons<S>(m: Module<S>, rec: Recording, made: seq<Made>)
    requires made != []
    ensures AllRightlyErased(m, rec, made) <==> RightlyErasedMade(m, rec, made[0]) && AllRightlyErased(m, rec, made[1..])
  {
    assert forall k :: 1 <= k < |made| ==> made[k] == made[1..][k - 1];
  }

  /** Position by position is the same as following with a cursor. */
  lemma {:induction false} PositionByPosition<S>(m: Module<S>, rec: Recording, made: seq<Made>, p: nat, q: nat)
    ensures ShownFrom(m, rec, made, p, q) <==>
            q == p + |Keep(made)| && ShowsAll(m, rec, Keep(made), p) && AllRightlyErased(m, rec, made)
    decreases |made|
  {
    hide ShowsAll;
    hide AllRightlyErased;
    if made == [] {
      ShowsNone(m, rec, p);
    } else {
      ErasedCons(m, rec, made);
      if Shown(made[0]) {
        PositionByPosition(m, rec, made[1..], p + 1, q);
        ShowsCons(m, rec, made[0], Keep(made[1..]), p);
      } else {
        PositionByPosition(m, rec, made[1..], p, q);
        assert Keep(made) == Keep(made[1..]);
      }
    }
  }

  lemma {:induction false} ShowsNone<S>(m: Module<S>, rec: Recording, p: nat)
    ensures ShowsAll(m, rec, [], p) && AllRightlyErased(m, rec, [])
  {}

  // ---- soundness: what a successful replay saw ----------------------------------

  /** Crossings are numbered by position, as the assembler numbers them. */
  ghost predicate Numbered(cs: seq<Crossing>) { forall i :: 0 <= i < |cs| ==> cs[i].seqNo == i }

  /** The imported calls of a guest run, as served from the recording. */
  ghost function Events<S>(m: Module<S>, rec: Recording, r: Replayer, s: S, fuel: nat): seq<ImportEvent>
    decreases fuel
  {
    if fuel == 0 || !m.act(s).Calls? || !Typed(m, m.act(s).index, m.act(s).args) then []
    else
      var i, args := m.act(s).index, m.act(s).args;
      var served := ServiceImport(m, rec, false, r, s, i, args);
      var at := if Valueless(m.imports[i]) && !rec.marked then None else Some(r.cursor);
      [ImportEvent(i, args, served.results, at)]
      + Events(m, rec, served.r, m.resume(served.guest, served.results), fuel - 1)
  }

  lemma {:induction false} ErrSticks<S>(m: Module<S>, rec: Recording, defer: bool, r: Replayer, s: S, fuel: nat)
    requires r.err.Some?
    ensures RunGuest(m, rec, defer, r, s, fuel).r.err == r.err
    decreases fuel
  {
    if fuel > 0 && m.act(s).Calls? && Typed(m, m.act(s).index, m.act(s).args) {
      var served := ServiceImport(m, rec, defer, r, s, m.act(s).index, m.act(s).args);
      ErrSticks(m, rec, defer, r, m.resume(served.guest, served.results), fuel - 1);
    }
  }

  /** One served call is the call the recording shows, or is rightly not shown. */
  lemma {:induction false} ServeSound<S>(m: Module<S>, rec: Recording, r: Replayer, s: S, i: nat, args: seq<Bits>)
    requires Numbered(rec.crossings) && Typed(m, i, args) && r.err.None?
    ensures var served := ServiceImport(m, rec, false, r, s, i, args);
            var at := if Valueless(m.imports[i]) && !rec.marked then None else Some(r.cursor);
            var e := ImportEvent(i, args, served.results, at);
            served.r.err.None? ==>
              && HostWrites(m, at, s) == Some(served.guest) && RightlyErased(m, rec, e)
              && served.r == (if at.None? then r.(unchecked := r.unchecked + 1)
                              else r.(cursor := r.cursor + 1, importCalls := r.importCalls + 1))
              && (at.Some? ==> Shows(m, rec, MadeImport(e), r.cursor))
  {
    hide Decodes;
    var served := ServiceImport(m, rec, false, r, s, i, args);
    if served.r.err.None? && !(Valueless(m.imports[i]) && !rec.marked) {
      var c := rec.crossings[r.cursor];
      DecodesExactly(m.decode, c.args, m.imports[i].params, args);
      DecodesExactly(m.decode, c.results, m.imports[i].results, served.results);
    }
  }

  /** A call served strictly as the recording shows it. */
  lemma {:induction false} ServeComplete<S>(m: Module<S>, rec: Recording, r: Replayer, s: S, e: ImportEvent)
    requires Numbered(rec.crossings) && Typed(m, e.index, e.args) && r.err.None?
    requires RightlyErased(m, rec, e) && HostWrites(m, e.at, s).Some?
    requires e.at.Some? ==> Shows(m, rec, MadeImport(e), r.cursor)
    ensures ServiceImport(m, rec, false, r, s, e.index, e.args) ==
            Served(if e.at.None? then r.(unchecked := r.unchecked + 1)
                   else r.(cursor := r.cursor + 1, importCalls := r.importCalls + 1),
                   HostWrites(m, e.at, s).value, e.results)
  {
    hide Decodes;
    if e.at.Some? {
      var c := rec.crossings[r.cursor];
      DecodesExactly(m.decode, c.args, m.imports[e.index].params, e.args);
      DecodesExactly(m.decode, c.results, m.imports[e.index].results, e.results);
    }
  }

  /** The replayer after the crossings `made` have been served. */
  function After(r: Replayer, made: seq<Made>, q: nat): Replayer {
    r.(cursor := q, importCalls := r.importCalls + |Keep(made)|, unchecked := r.unchecked + ErasedCount(made))
  }

  lemma {:induction false} RunSound<S>(m: Module<S>, rec: Recording, r: Replayer, s: S, fuel: nat)
    requires Numbered(rec.crossings) && r.err.None?
    ensures var ran := RunGuest(m, rec, false, r, s, fuel);
            var evs := Events(m, rec, r, s, fuel);
            ran.r.err.None? && ran.stop.Finished? ==>
              && GuestCall(m, s, evs, ran.stop.values, ran.guest)
              && ShownFrom(m, rec, ImportsMade(evs), r.cursor, ran.r.cursor)
              && ran.r == After(r, ImportsMade(evs), ran.r.cursor)
    decreases fuel
  {
    hide ServiceImport;
    hide Shows;
    hide RightlyErased;
    if fuel > 0 && m.act(s).Calls? && Typed(m, m.act(s).index, m.act(s).args) {
      var i, args := m.act(s).index, m.act(s).args;
      var served := ServiceImport(m, rec, false, r, s, i, args);
      var next := m.resume(served.guest, served.results);
      if served.r.err.Some? {
        ErrSticks(m, rec, false, served.r, next, fuel - 1);
      } else {
        ServeSound(m, rec, r, s, i, args);
        RunSound(m, rec, served.r, next, fuel - 1);
        var evs, rest := Events(m, rec, r, s, fuel), Events(m, rec, served.r, next, fuel - 1);
        var ran := RunGuest(m, rec, false, served.r, next, fuel - 1);
        assert evs == [evs[0]] + rest && evs[1..] == rest;
        assert RunGuest(m, rec, false, r, s, fuel) == ran;
        hide RunGuest;
        hide Events;
        hide ShownFrom;
        hide ImportsMade;
        hide After;
        if ran.r.err.None? && ran.stop.Finished? {
          OneMoreImport(m, rec, r, evs[0], rest, ran.r.cursor);
        }
      }
    }
  }

  /** An import that was served, and then the others. */
  lemma {:induction false} OneMoreImport<S>(m: Module<S>, rec: Recording, r: Replayer, e: ImportEvent, rest: seq<ImportEvent>, q: nat)
    requires RightlyErased(m, rec, e) && (e.at.Some? ==> Shows(m, rec, MadeImport(e), r.cursor))
    requires ShownFrom(m, rec, ImportsMade(rest), if e.at.None? then r.cursor else r.cursor + 1, q)
    ensures ShownFrom(m, rec, ImportsMade([e] + rest), r.cursor, q)
    ensures var r1 := if e.at.None? then r.(unchecked := r.unchecked + 1)
                      else r.(cursor := r.cursor + 1, importCalls := r.importCalls + 1);
            After(r1, ImportsMade(rest), q) == After(r, ImportsMade([e] + rest), q)
  {
    hide Shows;
    hide RightlyErased;
    var evs := [e] + rest;
    assert evs[0] == e && evs[1..] == rest;
    var made := ImportsMade(evs);
    assert made[0] == MadeImport(e) && made[1..] == ImportsMade(rest);
  }

  lemma {:induction false} RunComplete<S>(m: Module<S>, rec: Recording, r: Replayer, s: S,
                                          evs: seq<ImportEvent>, vs: seq<Bits>, s': S, q: nat, fuel: nat)
    requires Numbered(rec.crossings) && r.err.None? && fuel > |evs|
    requires GuestCall(m, s, evs, vs, s') && ShownFrom(m, rec, ImportsMade(evs), r.cursor, q)
    ensures RunGuest(m, rec, false, r, s, fuel) == Ran(After(r, ImportsMade(evs), q), s', Finished(vs))
    decreases |evs|
  {
    hide ServiceImport;
    hide Shows;
    hide RightlyErased;
    if m.act(s).Calls? {
      var e := evs[0];
      assert ImportsMade(evs)[1..] == ImportsMade(evs[1..]) && ImportsMade(evs)[0] == MadeImport(e);
      ServeComplete(m, rec, r, s, e);
      var served := ServiceImport(m, rec, false, r, s, e.index, e.args);
      RunComplete(m, rec, served.r, m.resume(served.guest, served.results), evs[1..], vs, s', q, fuel - 1);
    }
  }

  // ---- exported calls -------------------------------------------------------------

  /** `c` stands in the recording at its own number. */
  ghost predicate InPlace(rec: Recording, c: Crossing) {
    c.seqNo < |rec.crossings| && rec.crossings[c.seqNo] == c && TopLevelExport(c)
  }

  /** The crossings of one exported call. */
  function CallMade(e: ExportEvent): seq<Made> { [MadeExport(e.name, e.args, e.results)] + ImportsMade(e.imports) }

  function AfterCall(r: Replayer, e: ExportEvent, q: nat): Replayer {
    After(r.(exportCalls := r.exportCalls + 1), ImportsMade(e.imports), q)
  }

  lemma {:induction false} CallSound<S>(m: Module<S>, rec: Recording, r: Replayer, s: S, c: Crossing, fuel: nat) returns (e: ExportEvent)
    requires Numbered(rec.crossings) && r.err.None? && InPlace(rec, c) && CheckExport(m, c).Pass?
    requires CallExport(m, rec, false, r, s, c, fuel).Pass?
    ensures var called := CallExport(m, rec, false, r, s, c, fuel).value;
            && GuestCall(m, m.enter(s, e.name, e.args), e.imports, e.results, called.guest)
            && ShownFrom(m, rec, CallMade(e), r.cursor, called.r.cursor)
            && called.r == AfterCall(r, e, called.r.cursor)
  {
    hide GuestCall;
    hide RunGuest;
    hide ServiceImport;
    hide ShowsImport;
    hide RightlyErased;
    var sig := m.exports[c.name];
    var args := DecodeTuple(m.decode, c.args, sig.params).value;
    var entered := r.(cursor := r.cursor + 1, exportCalls := r.exportCalls + 1);
    var s1 := m.enter(s, c.name, args);
    RunSound(m, rec, entered, s1, fuel);
    var ran := RunGuest(m, rec, false, entered, s1, fuel);
    var evs := Events(m, rec, entered, s1, fuel);
    e := ExportEvent(c.name, args, ran.stop.values, evs);
    DecodesExactly(m.decode, c.args, sig.params, args);
    DecodesExactly(m.decode, c.results, sig.results, e.results);
    hide Decodes;
    assert CallMade(e)[1..] == ImportsMade(evs);
    assert Shows(m, rec, CallMade(e)[0], r.cursor);
  }

  lemma {:induction false} CallComplete<S>(m: Module<S>, rec: Recording, r: Replayer, s: S, e: ExportEvent, s': S, q: nat, fuel: nat)
    requires Numbered(rec.crossings) && r.err.None? && fuel > |e.imports|
    requires GuestCall(m, m.enter(s, e.name, e.args), e.imports, e.results, s')
    requires ShownFrom(m, rec, CallMade(e), r.cursor, q)
    ensures r.cursor < |rec.crossings| && TopLevelExport(rec.crossings[r.cursor])
    ensures CheckExport(m, rec.crossings[r.cursor]).Pass?
    ensures CallExport(m, rec, false, r, s, rec.crossings[r.cursor], fuel) == Pass(Called(AfterCall(r, e, q), s'))
    ensures ShownFrom(m, rec, ImportsMade(e.imports), r.cursor + 1, q)
  {
    hide GuestCall;
    hide RunGuest;
    hide ShowsImport;
    hide RightlyErased;
    hide DecodeTuple;
    assert CallMade(e)[1..] == ImportsMade(e.imports);
    assert Shows(m, rec, CallMade(e)[0], r.cursor);
    var c := rec.crossings[r.cursor];
    DecodesExactly(m.decode, c.args, m.exports[e.name].params, e.args);
    DecodesExactly(m.decode, c.results, m.exports[e.name].results, e.results);
    var entered := r.(cursor := r.cursor + 1, exportCalls := r.exportCalls + 1);
    RunComplete(m, rec, entered, m.enter(s, e.name, e.args), e.imports, e.results, s', q, fuel);
    assert After(entered, ImportsMade(e.imports), q) == AfterCall(r, e, q);
  }

  /** How many imported calls of an execution a recording shows, and how many it does not. */
  function ImportsShown(ex: seq<ExportEvent>): nat {
    if ex == [] then 0 else |Keep(ImportsMade(ex[0].imports))| + ImportsShown(ex[1..])
  }

  function ImportsErased(ex: seq<ExportEvent>): nat {
    if ex == [] then 0 else ErasedCount(ImportsMade(ex[0].imports)) + ImportsErased(ex[1..])
  }

  function AfterAll(r: Replayer, ex: seq<ExportEvent>, q: nat): Replayer {
    r.(cursor := q, exportCalls := r.exportCalls + |ex|,
       importCalls := r.importCalls + ImportsShown(ex), unchecked := r.unchecked + ImportsErased(ex))
  }

  lemma {:induction false} ExecutionCons<S>(m: Module<S>, e: ExportEvent, ex: seq<ExportEvent>, s: S, points: seq<S>)
    requires points != []
    ensures Execution(m, [e] + ex, [s] + points) <==>
            GuestCall(m, m.enter(s, e.name, e.args), e.imports, e.results, points[0]) && Execution(m, ex, points)
  {
    hide GuestCall;
    var all, pts := [e] + ex, [s] + points;
    if Execution(m, all, pts) {
      assert ExecutionAt(m, all, pts, 0);
      forall k | 0 <= k < |ex| ensures ExecutionAt(m, ex, points, k) { assert ExecutionAt(m, all, pts, k + 1); }
    }
    if GuestCall(m, m.enter(s, e.name, e.args), e.imports, e.results, points[0]) && Execution(m, ex, points) {
      forall k | 0 <= k < |all| ensures ExecutionAt(m, all, pts, k) {
        if k > 0 { assert ExecutionAt(m, ex, points, k - 1); }
      }
    }
  }

  lemma {:induction false} DriveSound<S>(m: Module<S>, rec: Recording, r: Replayer, s: S, exports: seq<Crossing>, fuel: nat)
    returns (ex: seq<ExportEvent>)
    requires Numbered(rec.crossings) && r.err.None? && CheckExports(m, exports).Pass?
    requires forall k :: 0 <= k < |exports| ==> InPlace(rec, exports[k])
    requires Drive(m, rec, r, s, exports, fuel).Pass?
    ensures var d := Drive(m, rec, r, s, exports, fuel).value;
            && Execution(m, ex, d.points)
            && ShownFrom(m, rec, AllMade(ex), r.cursor, d.r.cursor)
            && d.r == AfterAll(r, ex, d.r.cursor)
    decreases |exports|
  {
    hide CallExport;
    hide GuestCall;
    hide Shows;
    if exports == [] {
      ex := [];
    } else {
      var e := CallSound(m, rec, r, s, exports[0], fuel);
      var called := CallExport(m, rec, false, r, s, exports[0], fuel).value;
      var rest := DriveSound(m, rec, called.r, called.guest, exports[1..], fuel);
      ex := [e] + rest;
      var d := Drive(m, rec, called.r, called.guest, exports[1..], fuel).value;
      ExecutionCons(m, e, rest, s, d.points);
      assert ex[1..] == rest && AllMade(ex) == CallMade(e) + AllMade(rest);
      ShownFromAppend(m, rec, CallMade(e), AllMade(rest), r.cursor, called.r.cursor, d.r.cursor);
    }
  }

  /** Between the exported calls there are only imports. */
  lemma {:induction false} SkipImports<S>(m: Module<S>, rec: Recording, evs: seq<ImportEvent>, p: nat, q: nat)
    requires ShownFrom(m, rec, ImportsMade(evs), p, q)
    ensures TopLevelFrom(rec.crossings, p) == TopLevelFrom(rec.crossings, q)
    decreases |evs|
  {
    if evs != [] {
      assert ImportsMade(evs)[1..] == ImportsMade(evs[1..]);
      var shown := evs[0].at.Some?;
      SkipImports(m, rec, evs[1..], if shown then p + 1 else p, q);
      if shown {
        assert Shows(m, rec, MadeImport(evs[0]), p);
        assert [] + TopLevelFrom(rec.crossings, p + 1) == TopLevelFrom(rec.crossings, p + 1);
      }
    }
  }

  function MostImports(ex: seq<ExportEvent>): nat {
    if ex == [] then 0
    else if |ex[0].imports| >= MostImports(ex[1..]) then |ex[0].imports| else MostImports(ex[1..])
  }

  lemma {:induction false} CallShown<S>(m: Module<S>, rec: Recording, e: ExportEvent, p: nat, q: nat)
    requires ShownFrom(m, rec, CallMade(e), p, q)
    ensures ShownFrom(m, rec, ImportsMade(e.imports), p + 1, q)
    ensures p < |rec.crossings| && TopLevelExport(rec.crossings[p])
  {
    assert CallMade(e)[0] == MadeExport(e.name, e.args, e.results) && CallMade(e)[1..] == ImportsMade(e.imports);
  }

  lemma {:induction false} DriveComplete<S>(m: Module<S>, rec: Recording, r: Replayer, ex: seq<ExportEvent>, points: seq<S>, fuel: nat)
    requires Numbered(rec.crossings) && r.err.None? && fuel > MostImports(ex)
    requires Execution(m, ex, points) && ShownFrom(m, rec, AllMade(ex), r.cursor, |rec.crossings|)
    ensures var exports := TopLevelFrom(rec.crossings, r.cursor);
            && CheckExports(m, exports).Pass? && |exports| == |ex|
            && Drive(m, rec, r, points[0], exports, fuel) == Pass(Driven(AfterAll(r, ex, |rec.crossings|), points))
    decreases |ex|
  {
    hide CallExport;
    hide GuestCall;
    hide Shows;
    hide CheckExport;
    if ex == [] {
      assert points == [points[0]];
    } else {
      hide ShownFrom;
      hide Execution;
      hide CheckExports;
      hide Drive;
      hide TopLevelFrom;
      hide AfterAll;
      hide AfterCall;
      hide CallMade;
      var e, rest := ex[0], ex[1..];
      assert ex == [e] + rest && points == [points[0]] + points[1..];
      ExecutionCons(m, e, rest, points[0], points[1..]);
      MadeCons(ex);
      var q := ShownFromSplit(m, rec, CallMade(e), AllMade(rest), r.cursor, |rec.crossings|);
      hide AllMade;
      CallComplete(m, rec, r, points[0], e, points[1], q, fuel);
      var r1 := AfterCall(r, e, q);
      CallThenAll(r, ex, q, |rec.crossings|);
      ExecutionPoints(m, rest, points[1..]);
      DriveComplete(m, rec, r1, rest, points[1..], fuel);
      NextExports(m, rec, e, r.cursor, q);
      DriveCons(m, rec, r, points[0], rec.crossings[r.cursor], TopLevelFrom(rec.crossings, q), fuel);
    }
  }

  lemma {:induction false} MadeCons(ex: seq<ExportEvent>)
    requires ex != []
    ensures AllMade(ex) == CallMade(ex[0]) + AllMade(ex[1..])
    ensures MostImports(ex) >= |ex[0].imports| && MostImports(ex) >= MostImports(ex[1..])
  {}

  lemma {:induction false} ExecutionPoints<S>(m: Module<S>, ex: seq<ExportEvent>, points: seq<S>)
    requires Execution(m, ex, points)
    ensures |points| == |ex| + 1
  {}

  lemma {:induction false} CallThenAll(r: Replayer, ex: seq<ExportEvent>, q: nat, end: nat)
    requires ex != []
    ensures var r1 := AfterCall(r, ex[0], q);
            r1.cursor == q && r1.err == r.err && AfterAll(r1, ex[1..], end) == AfterAll(r, ex, end)
  {}

  lemma {:induction false} NextExports<S>(m: Module<S>, rec: Recording, e: ExportEvent, p: nat, q: nat)
    requires ShownFrom(m, rec, CallMade(e), p, q)
    ensures p < |rec.crossings|
    ensures TopLevelFrom(rec.crossings, p) == [rec.crossings[p]] + TopLevelFrom(rec.crossings, q)
  {
    hide ShownFrom;
    CallShown(m, rec, e, p, q);
    SkipImports(m, rec, e.imports, p + 1, q);
  }

  /** Checking and driving one call, and then the others. */
  lemma {:induction false} DriveCons<S>(m: Module<S>, rec: Recording, r: Replayer, s: S, c: Crossing, rest: seq<Crossing>, fuel: nat)
    ensures CheckExport(m, c).Pass? ==> CheckExports(m, [c] + rest) == CheckExports(m, rest)
    ensures Drive(m, rec, r, s, [c] + rest, fuel) ==
            match CallExport(m, rec, false, r, s, c, fuel)
            case Fail(f) => Fail(f)
            case Pass(called) =>
              (match Drive(m, rec, called.r, called.guest, rest, fuel)
               case Fail(f) => Fail(f)
               case Pass(d) => Pass(Driven(d.r, [s] + d.points)))
  {
    hide CallExport;
    hide CheckExport;
    assert ([c] + rest)[0] == c && ([c] + rest)[1..] == rest;
  }

  // ---- the theorem -------------------------------------------------------------------

  lemma {:induction false} ExportsInPlace(rec: Recording, i: nat)
    requires Numbered(rec.crossings)
    ensures forall k :: 0 <= k < |TopLevelFrom(rec.crossings, i)| ==> InPlace(rec, TopLevelFrom(rec.crossings, i)[k])
    decreases |rec.crossings| - i
  {
    if i < |rec.crossings| { ExportsInPlace(rec, i + 1); }
  }

  lemma {:induction false} KeptCount(ex: seq<ExportEvent>)
    ensures |Keep(AllMade(ex))| == |ex| + ImportsShown(ex)
    decreases |ex|
  {
    if ex != [] {
      KeptCount(ex[1..]);
      var e := ex[0];
      KeepAppend(CallMade(e), AllMade(ex[1..]));
      assert CallMade(e)[1..] == ImportsMade(e.imports);
      assert AllMade(ex) == CallMade(e) + AllMade(ex[1..]);
    }
  }

  lemma {:induction false} KeepAppend(a: seq<Made>, b: seq<Made>)
    ensures Keep(a + b) == Keep(a) + Keep(b)
    decreases |a|
  {
    if a == [] {
      assert a + b == b;
    } else {
      assert (a + b)[1..] == a[1..] + b && (a + b)[0] == a[0];
      KeepAppend(a[1..], b);
      var head := if Shown(a[0]) then [a[0]] else [];
      assert head + (Keep(a[1..]) + Keep(b)) == head + Keep(a[1..]) + Keep(b);
    }
  }

  /** A successful whole replay is an execution of the guest from its initial state that the
      recording shows exactly; the counts and quiescent states reported are its own. */
  lemma {:induction false} ReplayIsFaithful<S>(m: Module<S>, rec: Recording, fuel: nat) returns (ex: seq<ExportEvent>)
    requires Numbered(rec.crossings)
    requires Replay(m, rec, 0, 0, None, fuel).Pass?
    ensures var report := Replay(m, rec, 0, 0, None, fuel).value;
            && Execution(m, ex, report.points) && report.points[0] == m.init
            && RecordingOf(m, rec, ex)
            && report.exportCalls == |ex| && report.importCalls == |rec.crossings| - |ex|
            && report.unchecked == ImportsErased(ex)
  {
    hide Drive;
    hide ShowsAll;
    hide AllRightlyErased;
    hide Execution;
    hide CheckExports;
    var exports := TopLevelFrom(rec.crossings, 0);
    ExportsInPlace(rec, 0);
    assert exports[0..|exports|] == exports;
    ex := DriveSound(m, rec, Idle(0), m.init, exports, fuel);
    PositionByPosition(m, rec, AllMade(ex), 0, |rec.crossings|);
    KeptCount(ex);
  }

  /** Conversely, an execution the recording shows is accepted, with those counts and states,
      as soon as the step budget covers its longest call. */
  lemma {:induction false} FaithfulIsReplayed<S>(m: Module<S>, rec: Recording, ex: seq<ExportEvent>, points: seq<S>, fuel: nat)
    requires Numbered(rec.crossings) && !HasNested(rec.crossings) && fuel > MostImports(ex)
    requires Execution(m, ex, points) && points[0] == m.init && RecordingOf(m, rec, ex)
    ensures Replay(m, rec, 0, 0, None, fuel) ==
            Pass(Report(|ex|, ImportsShown(ex), ImportsErased(ex), 0, |ex|, points, |rec.crossings|))
  {
    hide Drive;
    hide ShowsAll;
    hide AllRightlyErased;
    hide Execution;
    hide CheckExports;
    PositionByPosition(m, rec, AllMade(ex), 0, |rec.crossings|);
    DriveComplete(m, rec, Idle(0), ex, points, fuel);
    var exports := TopLevelFrom(rec.crossings, 0);
    assert exports[0..|exports|] == exports;
  }

  ghost predicate Accepted<S>(m: Module<S>, rec: Recording) {
    exists fuel: nat :: Replay(m, rec, 0, 0, None, fuel).Pass?
  }

  ghost predicate IsRecording<S(!new)>(m: Module<S>, rec: Recording) {
    exists ex: seq<ExportEvent>, points: seq<S> ::
      Execution(m, ex, points) && points[0] == m.init && RecordingOf(m, rec, ex)
  }

  /** Acceptance is faithful, in both directions. */
  lemma {:induction false} AcceptedExactlyIfRecorded<S(!new)>(m: Module<S>, rec: Recording)
    requires Numbered(rec.crossings)
    ensures Accepted(m, rec) <==> !HasNested(rec.crossings) && IsRecording(m, rec)
  {
    hide RecordingOf;
    if Accepted(m, rec) {
      var fuel: nat :| Replay(m, rec, 0, 0, None, fuel).Pass?;
      var ex := ReplayIsFaithful(m, rec, fuel);
    }
    if !HasNested(rec.crossings) && IsRecording(m, rec) {
      var ex: seq<ExportEvent>, points: seq<S> :|
        Execution(m, ex, points) && points[0] == m.init && RecordingOf(m, rec, ex);
      FaithfulIsReplayed(m, rec, ex, points, MostImports(ex) + 1);
    }
  }
}
