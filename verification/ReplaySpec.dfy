/** Replaying a recording against a deterministic guest (internal/boundarylog/replay.go).

    The guest is a deterministic step function; a value is its 64-bit pattern; decoding a
    recorded value and applying the host's memory and global writes of a crossing are
    parameters. A budget of steps per exported call stands for running to completion. */
module ReplaySpec {
  import opened Wrappers
  import opened Crossings

  type Bits = n: int | 0 <= n < 0x1_0000_0000_0000_0000

  datatype ScalarType = I32 | I64 | F32 | F64

  datatype Signature = Signature(params: seq<ScalarType>, results: seq<ScalarType>)

  /** What the guest does next. */
  datatype Action =
    | Calls(index: nat, args: seq<Bits>)
    | Returns(values: seq<Bits>)
    | Traps

  datatype Module<!S> = Module(
    imports: seq<Signature>,
    exports: map<string, Signature>,
    manifest: map<string, Option<Signature>>,   // what the manifest says of exports; None: unreadable
    decode: (RawValue, ScalarType) -> Option<Bits>,
    init: S,
    enter: (S, string, seq<Bits>) -> S,
    act: S -> Action,
    resume: (S, seq<Bits>) -> S,
    mutate: (nat, S) -> Option<S>)

  datatype Recording = Recording(crossings: seq<Crossing>, marked: bool)

  /** Why a replay stops. */
  datatype Fault =
    | UnrecordedCall | WrongKind | WrongImport | WrongArgument | Undecodable | MutationRefused
    | MissingResult | MixedFormats | CrossingOrder | NoSuchExport | WrongArity | Trapped | StillRunning
    | ManifestDisagrees | WrongReturn | NestedExports | CrossingCount | NoSuchRange | NoResume | BadGroup
    | Unclassifiable | StreamBroken

  datatype Check<+T> = Pass(value: T) | Fail(fault: Fault)

  datatype Replayer = Replayer(
    cursor: nat,                 // the next crossing the recording expects
    err: Option<Fault>,          // the first divergence seen inside a stub
    exportCalls: nat,
    importCalls: nat,
    unchecked: nat,
    deferred: Option<Fault>)     // what a strict reading would have said of an unclassified call

  function DecodeTuple(decode: (RawValue, ScalarType) -> Option<Bits>, raws: seq<RawValue>, types: seq<ScalarType>)
    : (out: Option<seq<Bits>>)
    ensures out.Some? ==> |raws| == |types| == |out.value|
    decreases |raws|
  {
    if |raws| != |types| then None
    else if raws == [] then Some([])
    else
      match (decode(raws[0], types[0]), DecodeTuple(decode, raws[1..], types[1..]))
      case (Some(v), Some(vs)) => Some([v] + vs)
      case _ => None
  }

  /** Slot by slot: as many raw values as types and values, and each raw value decodes at its type. */
  ghost predicate Decodes(decode: (RawValue, ScalarType) -> Option<Bits>, raws: seq<RawValue>, types: seq<ScalarType>, values: seq<Bits>) {
    |raws| == |types| == |values| && forall i :: 0 <= i < |raws| ==> decode(raws[i], types[i]) == Some(values[i])
  }

  /** A tuple decodes exactly if the lengths agree and every slot does; and then to the slots' values. */
  lemma {:induction false} TupleDecodes(decode: (RawValue, ScalarType) -> Option<Bits>, raws: seq<RawValue>, types: seq<ScalarType>)
    ensures var out := DecodeTuple(decode, raws, types);
            && (out.Some? <==> |raws| == |types| && forall i :: 0 <= i < |raws| ==> decode(raws[i], types[i]).Some?)
            && (out.Some? ==> Decodes(decode, raws, types, out.value))
    decreases |raws|
  {
    var out := DecodeTuple(decode, raws, types);
    if |raws| == |types| && raws != [] {
      TupleDecodes(decode, raws[1..], types[1..]);
      var rest := DecodeTuple(decode, raws[1..], types[1..]);
      assert forall i :: 0 < i < |raws| ==> raws[i] == raws[1..][i - 1] && types[i] == types[1..][i - 1];
      if out.Some? {
        assert forall i :: 0 < i < |raws| ==> out.value[i] == rest.value[i - 1];
      } else if decode(raws[0], types[0]).Some? {
        var i :| 0 <= i < |raws[1..]| && decode(raws[1..][i], types[1..][i]).None?;
        assert decode(raws[i + 1], types[i + 1]).None?;
      }
    }
  }

  lemma {:induction false} DecodesExactly(decode: (RawValue, ScalarType) -> Option<Bits>, raws: seq<RawValue>,
                                          types: seq<ScalarType>, values: seq<Bits>)
    ensures DecodeTuple(decode, raws, types) == Some(values) <==> Decodes(decode, raws, types, values)
  {
    hide DecodeTuple;
    TupleDecodes(decode, raws, types);
    if Decodes(decode, raws, types, values) {
      var out := DecodeTuple(decode, raws, types).value;
      assert forall i :: 0 <= i < |values| ==> values[i] == out[i];
      assert values == out;
    }
  }

  predicate Valueless(sig: Signature) { sig.params == [] && sig.results == [] }

  /** An imported call the module's types allow. */
  predicate Typed<S>(m: Module<S>, index: nat, args: seq<Bits>) {
    index < |m.imports| && |args| == |m.imports[index].params|
  }

  // ---- one imported call ---------------------------------------------------

  /** matchImportCrossing: is the crossing at the cursor this imported call? */
  function MatchImport<S>(m: Module<S>, rec: Recording, cursor: nat, index: nat, args: seq<Bits>): (out: Check<Crossing>)
    requires Typed(m, index, args)
    ensures out.Pass? ==> cursor < |rec.crossings| && out.value == rec.crossings[cursor]
  {
    if cursor >= |rec.crossings| then Fail(UnrecordedCall)
    else
      var c := rec.crossings[cursor];
      if c.kind != Import then Fail(WrongKind)
      else if c.index != index then Fail(WrongImport)
      else
        match DecodeTuple(m.decode, c.args, m.imports[index].params)
        case None => Fail(Undecodable)
        case Some(want) => if want != args then Fail(WrongArgument) else Pass(c)
  }

  /** It is exactly if the crossing is an import of that index whose arguments decode, in their places, to
      those of the call; and otherwise the first difference decides the fault. */
  lemma {:induction false} MatchedExactly<S>(m: Module<S>, rec: Recording, cursor: nat, index: nat, args: seq<Bits>)
    requires Typed(m, index, args)
    ensures var out := MatchImport(m, rec, cursor, index, args);
            if cursor >= |rec.crossings| then out == Fail(UnrecordedCall)
            else
              var c, params := rec.crossings[cursor], m.imports[index].params;
              && (out == Pass(c) <==> c.kind.Import? && c.index == index && Decodes(m.decode, c.args, params, args))
              && (out.Pass? ==> out.value == c)
              && (out == Fail(WrongKind) <==> c.kind.Export?)
              && (out == Fail(WrongImport) <==> c.kind.Import? && c.index != index)
              && (out == Fail(WrongArgument) <==>
                    && c.kind.Import? && c.index == index
                    && exists values: seq<Bits> :: values != args && Decodes(m.decode, c.args, params, values))
  {
    hide DecodeTuple;
    if cursor < |rec.crossings| {
      var c, params := rec.crossings[cursor], m.imports[index].params;
      var want := DecodeTuple(m.decode, c.args, params);
      DecodesExactly(m.decode, c.args, params, args);
      forall values: seq<Bits>
        ensures want == Some(values) <==> Decodes(m.decode, c.args, params, values)
      {
        DecodesExactly(m.decode, c.args, params, values);
      }
      if want.Some? { assert Decodes(m.decode, c.args, params, want.value); }
    }
  }

  /** serviceUnwitnessedValuelessImport: counted, and classified later when deferring. */
  function ServiceUnwitnessed<S>(m: Module<S>, rec: Recording, defer: bool, r: Replayer, index: nat): Replayer
    requires Typed(m, index, [])
  {
    var strict := MatchImport(m, rec, r.cursor, index, []);
    var verdict := if strict.Fail? then strict.fault else MixedFormats;
    r.(unchecked := r.unchecked + 1,
       deferred := if defer && r.deferred.None? then Some(verdict) else r.deferred)
  }

  datatype Served<S> = Served(r: Replayer, guest: S, results: seq<Bits>)

  function Zeros(n: nat): seq<Bits> { seq(n, _ => 0) }

  /** serviceImport: assert the recorded arguments, feed back the recorded results. */
  function ServiceImport<S>(m: Module<S>, rec: Recording, defer: bool, r: Replayer, s: S, index: nat, args: seq<Bits>): Served<S>
    requires Typed(m, index, args)
  {
    var sig := m.imports[index];
    var zeros := Zeros(|sig.results|);
    if r.err.Some? then Served(r, s, zeros)
    else if Valueless(sig) && !rec.marked then Served(ServiceUnwitnessed(m, rec, defer, r, index), s, [])
    else
      match MatchImport(m, rec, r.cursor, index, args)
      case Fail(f) => Served(r.(err := Some(f)), s, zeros)
      case Pass(c) =>
        match m.mutate(c.seqNo, s)
        case None => Served(r.(err := Some(MutationRefused)), s, zeros)
        case Some(s1) =>
          if sig.results != [] && !c.hasResults then Served(r.(err := Some(MissingResult)), s1, zeros)
          else
            match DecodeTuple(m.decode, c.results, sig.results)
            case None => Served(r.(err := Some(Undecodable)), s1, zeros)
            case Some(vs) => Served(r.(cursor := r.cursor + 1, importCalls := r.importCalls + 1), s1, vs)
  }

  // ---- one exported call ----------------------------------------------------

  datatype Stop = Finished(values: seq<Bits>) | Trapping | OutOfSteps

  datatype Ran<S> = Ran(r: Replayer, guest: S, stop: Stop)

  /** The guest runs, its imported calls served from the recording, for at most `fuel` steps. */
  function RunGuest<S>(m: Module<S>, rec: Recording, defer: bool, r: Replayer, s: S, fuel: nat): Ran<S>
    decreases fuel
  {
    if fuel == 0 then Ran(r, s, OutOfSteps)
    else
      match m.act(s)
      case Returns(vs) => Ran(r, s, Finished(vs))
      case Traps => Ran(r, s, Trapping)
      case Calls(i, args) =>
        if !Typed(m, i, args) then Ran(r, s, Trapping)
        else
          var served := ServiceImport(m, rec, defer, r, s, i, args);
          RunGuest(m, rec, defer, served.r, m.resume(served.guest, served.results), fuel - 1)
  }

  datatype Called<S> = Called(r: Replayer, guest: S)

  /** callExport: drive one recorded exported call and check what it returns. */
  function CallExport<S>(m: Module<S>, rec: Recording, defer: bool, r: Replayer, s: S, c: Crossing, fuel: nat): Check<Called<S>> {
    if r.cursor >= |rec.crossings| || r.cursor != c.seqNo then Fail(CrossingOrder)
    else if c.name !in m.exports then Fail(NoSuchExport)
    else
      var sig := m.exports[c.name];
      match DecodeTuple(m.decode, c.args, sig.params)
      case None => Fail(Undecodable)
      case Some(args) =>
        var entered := r.(cursor := r.cursor + 1, exportCalls := r.exportCalls + 1);
        CheckReturn(m, c, sig, RunGuest(m, rec, defer, entered, m.enter(s, c.name, args), fuel))
  }

  function CheckReturn<S>(m: Module<S>, c: Crossing, sig: Signature, ran: Ran<S>): Check<Called<S>> {
    if ran.r.err.Some? then Fail(ran.r.err.value)
    else
      match ran.stop
      case Trapping => Fail(Fault.Trapped)
      case OutOfSteps => Fail(StillRunning)
      case Finished(got) =>
        match DecodeTuple(m.decode, c.results, sig.results)
        case None => Fail(Undecodable)
        case Some(want) => if want != got then Fail(WrongReturn) else Pass(Called(ran.r, ran.guest))
  }

  /** The manifest, if it knows the export, gives it the signature it has. */
  predicate ManifestAgrees<S>(m: Module<S>, name: string)
    requires name in m.exports
  {
    name in m.manifest ==> m.manifest[name] == Some(m.exports[name])
  }

  /** checkExportCrossing: does the module export this call with a compatible signature? */
  function CheckExport<S>(m: Module<S>, c: Crossing): Check<()> {
    if c.name == "" || c.name !in m.exports then Fail(NoSuchExport)
    else if !ManifestAgrees(m, c.name) then Fail(ManifestDisagrees)
    else if |c.args| != |m.exports[c.name].params| then Fail(WrongArity)
    else if m.exports[c.name].results != [] && !c.hasResults then Fail(MissingResult)
    else Pass(())
  }

  // ---- the batch driver ------------------------------------------------------

  /** The top-level exported calls from position `i` on, in call order. */
  function TopLevelFrom(cs: seq<Crossing>, i: nat): seq<Crossing>
    decreases |cs| - i
  {
    if i >= |cs| then []
    else (if TopLevelExport(cs[i]) then [cs[i]] else []) + TopLevelFrom(cs, i + 1)
  }

  predicate HasNested(cs: seq<Crossing>) { exists i :: 0 <= i < |cs| && NestedExport(cs[i]) }

  function CheckExports<S>(m: Module<S>, exports: seq<Crossing>): Check<()> {
    if exports == [] then Pass(())
    else
      match CheckExport(m, exports[0])
      case Fail(f) => Fail(f)
      case Pass(_) => CheckExports(m, exports[1..])
  }

  /** The guest's state at every quiescent point passed, and the replayer at the last. */
  datatype Driven<S> = Driven(r: Replayer, points: seq<S>)

  function Drive<S>(m: Module<S>, rec: Recording, r: Replayer, s: S, exports: seq<Crossing>, fuel: nat): (out: Check<Driven<S>>)
    ensures out.Pass? ==> |out.value.points| == |exports| + 1 && out.value.points[0] == s
    decreases |exports|
  {
    if exports == [] then Pass(Driven(r, [s]))
    else
      match CallExport(m, rec, false, r, s, exports[0], fuel)
      case Fail(f) => Fail(f)
      case Pass(called) =>
        match Drive(m, rec, called.r, called.guest, exports[1..], fuel)
        case Fail(f) => Fail(f)
        case Pass(d) => Pass(Driven(d.r, [s] + d.points))
  }

  /** resolveRange: the half-open range of exported calls to drive; `to == 0` is the end. */
  function ResolveRange(fromPoint: int, toPoint: int, resumable: bool, n: nat): (out: Check<(nat, nat)>)
    ensures out.Pass? ==> out.value.0 <= out.value.1 <= n
  {
    var to := if toPoint == 0 then n else toPoint;
    if fromPoint < 0 || fromPoint > n then Fail(NoSuchRange)
    else if to < fromPoint || to > n then Fail(NoSuchRange)
    else if fromPoint > 0 && !resumable then Fail(NoResume)
    else Pass((fromPoint, to))
  }

  datatype Report<S> = Report(
    exportCalls: nat, importCalls: nat, unchecked: nat,
    fromPoint: nat, toPoint: nat, points: seq<S>, cursor: nat)

  function Idle(cursor: nat): Replayer { Replayer(cursor, None, 0, 0, 0, None) }

  /** Where the crossing cursor starts for a replay from quiescent point `k`. */
  function SeedCursor(rec: Recording, exports: seq<Crossing>, k: nat): nat {
    if k == 0 then 0 else if k < |exports| then exports[k].seqNo else |rec.crossings|
  }

  function Replay<S>(m: Module<S>, rec: Recording, fromPoint: int, toPoint: int, resume: Option<S>, fuel: nat): Check<Report<S>> {
    var exports := TopLevelFrom(rec.crossings, 0);
    match CheckExports(m, exports)
    case Fail(f) => Fail(f)
    case Pass(_) =>
      if HasNested(rec.crossings) then Fail(NestedExports)
      else
        match ResolveRange(fromPoint, toPoint, resume.Some?, |exports|)
        case Fail(f) => Fail(f)
        case Pass((k, n)) =>
          var s := if k > 0 then resume.value else m.init;
          match Drive(m, rec, Idle(SeedCursor(rec, exports, k)), s, exports[k..n], fuel)
          case Fail(f) => Fail(f)
          case Pass(d) =>
            if k == 0 && n == |exports| && d.r.cursor != |rec.crossings| then Fail(CrossingCount)
            else Pass(Report(d.r.exportCalls, d.r.importCalls, d.r.unchecked, k, n, d.points, d.r.cursor))
  }

  // ---- the streaming driver ---------------------------------------------------

  /** What `appendGroup` accepts: one top-level exported call, in first place. */
  predicate GroupShape(group: seq<Crossing>) {
    && group != [] && TopLevelExport(group[0])
    && forall i :: 0 < i < |group| ==> !TopLevelExport(group[i])
  }

  function AppendGroup(rec: Recording, group: seq<Crossing>): Check<Recording> {
    var base := |rec.crossings|;
    if exists i :: 0 <= i < |group| && group[i].seqNo != base + i then Fail(BadGroup)
    else if HasNested(group) then Fail(NestedExports)
    else if !GroupShape(group) then Fail(BadGroup)
    else Pass(Recording(rec.crossings + group, rec.marked || AnyMarked(group)))
  }

  datatype Streamed<S> = Streamed(rec: Recording, r: Replayer, points: seq<S>)

  function DriveGroups<S>(m: Module<S>, rec: Recording, r: Replayer, s: S, groups: seq<seq<Crossing>>, fuel: nat): Check<Streamed<S>>
    decreases |groups|
  {
    if groups == [] then Pass(Streamed(rec, r, [s]))
    else
      match AppendGroup(rec, groups[0])
      case Fail(f) => Fail(f)
      case Pass(rec1) =>
        var c := rec1.crossings[|rec.crossings|];
        match CheckExport(m, c)
        case Fail(f) => Fail(f)
        case Pass(_) =>
          match CallExport(m, rec1, true, r, s, c, fuel)
          case Fail(f) => Fail(f)
          case Pass(called) =>
            match DriveGroups(m, rec1, called.r, called.guest, groups[1..], fuel)
            case Fail(f) => Fail(f)
            case Pass(d) => Pass(d.(points := [s] + d.points))
  }

  /** resolveDeferredValuelessImports: the question deferred at the call, answered at the end. */
  function ResolveDeferred(rec: Recording, r: Replayer, truncated: bool): Check<()> {
    if r.deferred.None? then Pass(())
    else if rec.marked then Fail(r.deferred.value)
    else if truncated then Fail(Unclassifiable)
    else Pass(())
  }

  datatype Ending = CleanEnd | TruncatedEnd | BrokenEnd

  /** StreamingReplay over the call groups a stream yields and the way it ends. */
  function StreamingReplay<S>(m: Module<S>, groups: seq<seq<Crossing>>, end: Ending, fuel: nat): Check<Report<S>> {
    match DriveGroups(m, Recording([], false), Idle(0), m.init, groups, fuel)
    case Fail(f) => Fail(f)
    case Pass(d) =>
      if end.BrokenEnd? then Fail(StreamBroken)
      else
        match ResolveDeferred(d.rec, d.r, end.TruncatedEnd?)
        case Fail(f) => Fail(f)
        case Pass(_) =>
          if end.CleanEnd? && d.r.cursor != |d.rec.crossings| then Fail(CrossingCount)
          else Pass(Report(d.r.exportCalls, d.r.importCalls, d.r.unchecked, 0, |groups|, d.points, d.r.cursor))
  }
}
