/** How the browser producer renders a tree of crossings into trace records: the rules of
    internal/boundarylog/recording.go under "How a crossing appears", in the record order of
    the producer replica in internal/boundarylog/browser_format_test.go. */
module Producer {
  import opened Wrappers
  import opened Labels
  import opened Crossings

  /** One boundary crossing and the crossings made during it. `lead` counts the `Path` and
      `Step` records the producer happens to write before it. */
  datatype Call =
    | ExportCall(lead: nat, name: string, args: seq<RawValue>, results: seq<RawValue>, body: Forest)
    | ImportCall(lead: nat, index: uint32, args: seq<RawValue>, results: seq<RawValue>, body: Forest)

  datatype Forest = Nil | Cons(head: Call, tail: Forest)

  /** Function and binding names already written; each is written once, on first use. */
  datatype Tables = Tables(functions: seq<string>, varNames: seq<string>)

  datatype Out = Out(records: seq<Record>, tables: Tables)

  function IndexOf(table: seq<string>, name: string): (i: nat)
    ensures i <= |table|
    ensures i < |table| ==> table[i] == name
    ensures i == |table| ==> name !in table
  {
    if table == [] || table[0] == name then 0 else 1 + IndexOf(table[1..], name)
  }

  function Intern(table: seq<string>, name: string): (r: seq<string>)
    ensures IndexOf(table, name) < |r| && r[IndexOf(table, name)] == name
  {
    if IndexOf(table, name) < |table| then table else table + [name]
  }

  /** The bindings of `values` from `slot` on. */
  function Bindings(tag: string, role: Role, values: seq<RawValue>, slot: nat, t: Tables): Out
    requires slot <= |values|
    decreases |values| - slot
  {
    if slot == |values| then Out([], t)
    else
      var name := BindingName(tag, role, slot);
      var id := IndexOf(t.varNames, name);
      var naming := if id < |t.varNames| then [] else [VariableName(name)];
      var rest := Bindings(tag, role, values, slot + 1, t.(varNames := Intern(t.varNames, name)));
      Out(naming + [Value(id, Some(values[slot]))] + rest.records, rest.tables)
  }

  /** flushValues: nothing for an empty tuple, else a `Step` and the bindings. */
  function Values(tag: string, role: Role, values: seq<RawValue>, t: Tables): Out {
    if values == [] then Out([], t)
    else
      var out := Bindings(tag, role, values, 0, t);
      Out([Delimiter] + out.records, out.tables)
  }

  function Delimiters(n: nat): seq<Record> {
    if n == 0 then [] else [Delimiter] + Delimiters(n - 1)
  }

  /** The `Function` record of a name seen for the first time. */
  function Naming(name: string, t: Tables): seq<Record> {
    if IndexOf(t.functions, name) < |t.functions| then [] else [Function(name)]
  }

  function Render(call: Call, t: Tables): Out
    decreases call
  {
    match call
    case ExportCall(lead, name, args, results, body) =>
      var t0 := t.(functions := Intern(t.functions, name));
      var before := Values(name, Arg, args, t0);
      var inside := RenderForest(body, before.tables);
      var after := Values(name, Ret, results, inside.tables);
      Out(Delimiters(lead + 1) + Naming(name, t) + [Record.Call(IndexOf(t.functions, name))]
          + before.records + [Event(ExportEdge)]
          + inside.records
          + after.records + [Return] + [Event(ExportEdge)], after.tables)
    case ImportCall(lead, index, args, results, body) =>
      var before := Values(ImportLabel(index), Arg, args, t);
      var inside := RenderForest(body, before.tables);
      var after := Values(ImportLabel(index), Ret, results, inside.tables);
      Out(Delimiters(lead)
          + before.records + [Event(ImportEdge(index, true))]
          + inside.records
          + after.records + [Event(ImportEdge(index, false))], after.tables)
  }

  function RenderForest(f: Forest, t: Tables): Out
    decreases f
  {
    match f
    case Nil => Out([], t)
    case Cons(call, rest) =>
      var a := Render(call, t);
      var b := RenderForest(rest, a.tables);
      Out(a.records + b.records, b.tables)
  }

  /** The recording of a whole session. */
  function Recording(f: Forest): seq<Record> { RenderForest(f, Tables([], [])).records }

  // ---- what was recorded -------------------------------------------------

  /** The crossing of `call` itself. */
  function CrossingOf(call: Call, depth: nat, seqNo: nat): Crossing {
    match call
    case ExportCall(_, name, args, results, _) =>
      Crossing(seqNo, depth, Export, name, 0, args, results, results != [], false)
    case ImportCall(_, index, args, results, _) =>
      Crossing(seqNo, depth, Import, "", index, args, results, results != [], true)
  }

  /** The crossings of `call`, in call order, numbered from `seqNo`. */
  function Preorder(call: Call, depth: nat, seqNo: nat): seq<Crossing>
    decreases call
  {
    [CrossingOf(call, depth, seqNo)] + PreorderForest(call.body, depth + 1, seqNo + 1)
  }

  function PreorderForest(f: Forest, depth: nat, seqNo: nat): seq<Crossing>
    decreases f
  {
    match f
    case Nil => []
    case Cons(call, rest) =>
      var first := Preorder(call, depth, seqNo);
      first + PreorderForest(rest, depth, seqNo + |first|)
  }

  predicate HasImport(call: Call)
    decreases call
  {
    call.ImportCall? || HasImportForest(call.body)
  }

  predicate HasImportForest(f: Forest)
    decreases f
  {
    f.Cons? && (HasImport(f.head) || HasImportForest(f.tail))
  }

  /** The names a value binding can carry: an export with values needs a name that is not
      empty and not an import label, and slots are machine integers. */
  predicate Nameable(call: Call) {
    && (call.ExportCall? && (call.args != [] || call.results != []) ==>
          call.name != "" && ParseImportLabel(call.name).None?)
    && |call.args| <= MAX_INT && |call.results| <= MAX_INT
  }

  predicate Renderable(call: Call)
    decreases call
  {
    Nameable(call) && RenderableForest(call.body)
  }

  predicate RenderableForest(f: Forest)
    decreases f
  {
    f.Cons? ==> Renderable(f.head) && RenderableForest(f.tail)
  }
}
