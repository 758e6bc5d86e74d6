/** Synthesised provider modules (internal/boundarylog/provider.go:13-249): what the module says, and
    the loops that print it. */
module ProviderSpec {
  import opened Wrappers
  import opened Bytes
  import opened Leb128Spec
  import opened WasmBinary

  datatype Scalar = TypeI32 | TypeI64 | TypeF32 | TypeF64

  datatype ImportedMemory = ImportedMemory(name: seq<byte>, minPages: uint32, maxPages: Option<uint32>)

  datatype ScalarValue = ScalarValue(scalar: Scalar, bits: uint64)

  /** `decoded` is what parsing the global's declared type and value gives. */
  datatype ImportedGlobal = ImportedGlobal(name: seq<byte>, mutable: bool, decoded: Result<ScalarValue>)

  datatype ImportPlan = ImportPlan(name: seq<byte>, paramTypes: seq<byte>, resultTypes: seq<byte>)

  datatype Provider = Provider(
    memories: seq<ImportedMemory>,
    globals: seq<ImportedGlobal>,
    funcs: seq<ImportPlan>,
    stubModule: seq<byte>)

  function ValueType(t: Scalar): byte {
    match t
    case TypeI32 => 0x7f
    case TypeI64 => 0x7e
    case TypeF32 => 0x7d
    case TypeF64 => 0x7c
  }

  function InitOf(v: ScalarValue): Init {
    match v.scalar
    case TypeI32 => I32(Wrap(v.bits, WORD32))
    case TypeI64 => I64(Wrap(v.bits, WORD64))
    case TypeF32 => F32(v.bits % WORD32)
    case TypeF64 => F64(v.bits)
  }

  function TypeOf(f: ImportPlan): FuncType { FuncType(f.paramTypes, f.resultTypes) }

  function IndexIn(types: seq<FuncType>, t: FuncType): (k: nat)
    ensures k <= |types|
    ensures k < |types| ==> types[k] == t
    ensures forall j :: 0 <= j < k ==> types[j] != t
  {
    if types == [] then 0
    else if types[0] == t then 0
    else
      var k := IndexIn(types[1..], t);
      assert forall j :: 1 <= j < |types| ==> types[j] == types[1..][j - 1];
      k + 1
  }

  function AddType(types: seq<FuncType>, t: FuncType): seq<FuncType> {
    if IndexIn(types, t) < |types| then types else types + [t]
  }

  /** The signatures of the functions in order of first appearance. */
  function DistinctTypes(funcs: seq<ImportPlan>): seq<FuncType> {
    if funcs == [] then []
    else AddType(DistinctTypes(funcs[..|funcs| - 1]), TypeOf(funcs[|funcs| - 1]))
  }

  /** The module a provider describes. */
  function Described(p: Provider): Module
    requires forall i :: 0 <= i < |p.globals| ==> p.globals[i].decoded.Ok?
  {
    Module(
      DistinctTypes(p.funcs),
      ImportsOf(p),
      MemoriesOf(p.memories),
      GlobalsOf(p.globals),
      DescribedExports(p))
  }

  function ImportsOf(p: Provider): seq<Import> {
    seq(|p.funcs|, i requires 0 <= i < |p.funcs| =>
      Import(p.stubModule, p.funcs[i].name, IndexIn(DistinctTypes(p.funcs), TypeOf(p.funcs[i]))))
  }

  function MemoriesOf(memories: seq<ImportedMemory>): seq<Limits> {
    seq(|memories|, i requires 0 <= i < |memories| => LimitsOf(memories[i]))
  }

  function GlobalsOf(globals: seq<ImportedGlobal>): seq<Global>
    requires forall i :: 0 <= i < |globals| ==> globals[i].decoded.Ok?
  {
    seq(|globals|, i requires 0 <= i < |globals| => GlobalOf(globals[i], globals[i].decoded.value))
  }

  function LimitsOf(m: ImportedMemory): Limits {
    Limits(m.minPages, if m.maxPages.Some? then Some(m.maxPages.value) else None)
  }

  function GlobalOf(g: ImportedGlobal, v: ScalarValue): Global { Global(ValueType(v.scalar), g.mutable, InitOf(v)) }

  /** Functions, then memories, then globals, each under its own name and index. */
  function DescribedExports(p: Provider): seq<Export> {
    seq(|p.funcs|, i requires 0 <= i < |p.funcs| => Export(p.funcs[i].name, 0x00, i))
    + seq(|p.memories|, i requires 0 <= i < |p.memories| => Export(p.memories[i].name, 0x02, i))
    + seq(|p.globals|, i requires 0 <= i < |p.globals| => Export(p.globals[i].name, 0x03, i))
  }

  /** A provider that carries something, names the stubs' module when it has functions, and whose
      globals all parse. */
  predicate Providable(p: Provider) {
    && (p.memories != [] || p.globals != [] || p.funcs != [])
    && (p.funcs != [] ==> p.stubModule != [])
    && forall i :: 0 <= i < |p.globals| ==> p.globals[i].decoded.Ok?
  }
}
