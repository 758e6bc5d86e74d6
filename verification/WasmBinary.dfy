/** The part of the WebAssembly binary format a provider module uses (section 5.5 of the WebAssembly
    Core Specification): a printer of modules and a reader that undoes it. */
module WasmBinary {
  import opened Wrappers
  import opened Bytes
  import opened Leb128Spec

  datatype FuncType = FuncType(params: seq<byte>, results: seq<byte>)
  datatype Import = Import(moduleName: seq<byte>, name: seq<byte>, typeIndex: nat)
  datatype Limits = Limits(min: nat, max: Option<nat>)
  datatype Init = I32(value: int) | I64(value: int) | F32(bits: nat) | F64(bits: nat)
  datatype Global = Global(valueType: byte, mutable: bool, init: Init)
  datatype Export = Export(name: seq<byte>, kind: byte, index: nat)

  datatype Module = Module(
    types: seq<FuncType>,
    imports: seq<Import>,
    memories: seq<Limits>,
    globals: seq<Global>,
    exports: seq<Export>)

  const MAGIC: seq<byte> := [0x00, 0x61, 0x73, 0x6d, 0x01, 0x00, 0x00, 0x00]

  predicate ValType(b: byte) { b in [0x7f, 0x7e, 0x7d, 0x7c, 0x7b, 0x70, 0x6f] }

  predicate ValTypes(s: seq<byte>) { forall i :: 0 <= i < |s| ==> ValType(s[i]) }

  // ---- printing ------------------------------------------------------------------

  function Concat<T>(enc: T -> seq<byte>, xs: seq<T>): seq<byte> {
    if xs == [] then [] else enc(xs[0]) + Concat(enc, xs[1..])
  }

  function Vec<T>(enc: T -> seq<byte>, xs: seq<T>): seq<byte> { Unsigned(|xs|) + Concat(enc, xs) }

  function NameBytes(name: seq<byte>): seq<byte> { Unsigned(|name|) + name }

  function FuncTypeBytes(t: FuncType): seq<byte> { [0x60] + NameBytes(t.params) + NameBytes(t.results) }

  function ImportBytes(i: Import): seq<byte> {
    NameBytes(i.moduleName) + NameBytes(i.name) + [0x00] + Unsigned(i.typeIndex)
  }

  function LimitsBytes(l: Limits): seq<byte> {
    match l.max
    case None => [0x00] + Unsigned(l.min)
    case Some(max) => [0x01] + Unsigned(l.min) + Unsigned(max)
  }

  function ConstBytes(i: Init): seq<byte> {
    match i
    case I32(v) => [0x41] + Signed(v)
    case I64(v) => [0x42] + Signed(v)
    case F32(bits) => [0x43] + LittleEndian(bits, 4)
    case F64(bits) => [0x44] + LittleEndian(bits, 8)
  }

  function InitBytes(i: Init): seq<byte> { ConstBytes(i) + [0x0b] }

  function GlobalBytes(g: Global): seq<byte> {
    [g.valueType] + [if g.mutable then 0x01 else 0x00] + InitBytes(g.init)
  }

  function ExportBytes(e: Export): seq<byte> { NameBytes(e.name) + [e.kind] + Unsigned(e.index) }

  function Section(id: byte, body: seq<byte>): seq<byte> { [id] + Unsigned(|body|) + body }

  /** A section only if it has entries. */
  function OptionalSection<T>(id: byte, enc: T -> seq<byte>, xs: seq<T>): seq<byte> {
    if xs == [] then [] else Section(id, Vec(enc, xs))
  }

  function ModuleBytes(m: Module): seq<byte> {
    MAGIC
    + (OptionalSection(1, FuncTypeBytes, m.types)
    + (OptionalSection(2, ImportBytes, m.imports)
    + (OptionalSection(5, LimitsBytes, m.memories)
    + (OptionalSection(6, GlobalBytes, m.globals)
    + Section(7, Vec(ExportBytes, m.exports))))))
  }

  // ---- reading -------------------------------------------------------------------

  function ReadU32(s: seq<byte>): Parsed<nat> {
    match DecodedUnsigned(s, 5, WORD32)
    case Rejected => Fail
    case Decoded(v, n) => if 0 <= v && n <= |s| then Got(v, s[n..]) else Fail
  }

  /** A signed integer of the given width: terminated, not too long, and in range. */
  function ReadSigned(s: seq<byte>, maxLen: nat, word: nat): Parsed<int> {
    var n := Terminator(s);
    if n.None? || n.value > maxLen then Fail
    else
      var v := SignedValue(s[..n.value]);
      if InRange(v, word) then Got(v, s[n.value..]) else Fail
  }

  function ReadBytes(n: nat, s: seq<byte>): Parsed<seq<byte>> {
    if n <= |s| then Got(s[..n], s[n..]) else Fail
  }

  function ReadName(s: seq<byte>): Parsed<seq<byte>> {
    match ReadU32(s)
    case Fail => Fail
    case Got(n, rest) => ReadBytes(n, rest)
  }

  /** `n` items, one after the other. */
  function ReadTimes<T>(p: seq<byte> -> Parsed<T>, n: nat, s: seq<byte>): Parsed<seq<T>> {
    if n == 0 then Got([], s)
    else
      match p(s)
      case Fail => Fail
      case Got(x, rest) =>
        match ReadTimes(p, n - 1, rest)
        case Fail => Fail
        case Got(xs, end) => Got([x] + xs, end)
  }

  function ReadVec<T>(p: seq<byte> -> Parsed<T>, s: seq<byte>): Parsed<seq<T>> {
    match ReadU32(s)
    case Fail => Fail
    case Got(n, rest) => ReadTimes(p, n, rest)
  }

  function ReadTag(tag: byte, s: seq<byte>): Parsed<()> {
    if s != [] && s[0] == tag then Got((), s[1..]) else Fail
  }

  function ReadValTypes(s: seq<byte>): Parsed<seq<byte>> {
    match ReadName(s)
    case Fail => Fail
    case Got(types, rest) => if ValTypes(types) then Got(types, rest) else Fail
  }

  function ReadFuncType(s: seq<byte>): Parsed<FuncType> {
    match ReadTag(0x60, s)
    case Fail => Fail
    case Got(_, afterTag) =>
      match ReadValTypes(afterTag)
      case Fail => Fail
      case Got(params, afterParams) =>
        match ReadValTypes(afterParams)
        case Fail => Fail
        case Got(results, rest) => Got(FuncType(params, results), rest)
  }

  function ReadImport(s: seq<byte>): Parsed<Import> {
    match ReadName(s)
    case Fail => Fail
    case Got(moduleName, afterModule) =>
      match ReadName(afterModule)
      case Fail => Fail
      case Got(name, afterName) =>
        match ReadTag(0x00, afterName)
        case Fail => Fail
        case Got(_, afterKind) =>
          match ReadU32(afterKind)
          case Fail => Fail
          case Got(index, rest) => Got(Import(moduleName, name, index), rest)
  }

  function ReadLimits(s: seq<byte>): Parsed<Limits> {
    if s == [] || s[0] > 1 then Fail
    else
      match ReadU32(s[1..])
      case Fail => Fail
      case Got(min, afterMin) =>
        if s[0] == 0 then Got(Limits(min, None), afterMin)
        else
          match ReadU32(afterMin)
          case Fail => Fail
          case Got(max, rest) => Got(Limits(min, Some(max)), rest)
  }

  function ReadConst(s: seq<byte>): Parsed<Init> {
    if s == [] then Fail
    else if s[0] == 0x41 then
      match ReadSigned(s[1..], 5, WORD32)
      case Fail => Fail
      case Got(v, rest) => Got(I32(v), rest)
    else if s[0] == 0x42 then
      match ReadSigned(s[1..], 10, WORD64)
      case Fail => Fail
      case Got(v, rest) => Got(I64(v), rest)
    else if s[0] == 0x43 then
      match ReadBytes(4, s[1..])
      case Fail => Fail
      case Got(bits, rest) => Got(F32(FromLittleEndian(bits)), rest)
    else if s[0] == 0x44 then
      match ReadBytes(8, s[1..])
      case Fail => Fail
      case Got(bits, rest) => Got(F64(FromLittleEndian(bits)), rest)
    else Fail
  }

  function ReadInit(s: seq<byte>): Parsed<Init> {
    match ReadConst(s)
    case Fail => Fail
    case Got(init, afterConst) =>
      match ReadTag(0x0b, afterConst)
      case Fail => Fail
      case Got(_, rest) => Got(init, rest)
  }

  function ReadGlobal(s: seq<byte>): Parsed<Global> {
    if |s| < 2 || !ValType(s[0]) || s[1] > 1 then Fail
    else
      match ReadInit(s[2..])
      case Fail => Fail
      case Got(init, rest) => Got(Global(s[0], s[1] == 1, init), rest)
  }

  function ReadExport(s: seq<byte>): Parsed<Export> {
    match ReadName(s)
    case Fail => Fail
    case Got(name, afterName) =>
      if afterName == [] || afterName[0] > 3 then Fail
      else
        match ReadU32(afterName[1..])
        case Fail => Fail
        case Got(index, rest) => Got(Export(name, afterName[0], index), rest)
  }

  /** The section with the given id if it comes next, read to exactly its declared size. */
  function ReadSection<T>(id: byte, p: seq<byte> -> Parsed<T>, s: seq<byte>): Parsed<seq<T>> {
    if s == [] || s[0] != id then Got([], s)
    else
      match ReadU32(s[1..])
      case Fail => Fail
      case Got(size, afterSize) =>
        if size > |afterSize| then Fail
        else
          match ReadVec(p, afterSize[..size])
          case Fail => Fail
          case Got(xs, left) => if left == [] then Got(xs, afterSize[size..]) else Fail
  }

  /** A module whose sections come in the canonical order, with nothing after them. */
  function ReadModule(s: seq<byte>): Option<Module> {
    if !([0x00, 0x61, 0x73, 0x6d, 0x01, 0x00, 0x00, 0x00] <= s) then None
    else
      match ReadSection(1, ReadFuncType, s[8..])
      case Fail => None
      case Got(types, s2) =>
        match ReadSection(2, ReadImport, s2)
        case Fail => None
        case Got(imports, s5) =>
          match ReadSection(5, ReadLimits, s5)
          case Fail => None
          case Got(memories, s6) =>
            match ReadSection(6, ReadGlobal, s6)
            case Fail => None
            case Got(globals, s7) =>
              match ReadSection(7, ReadExport, s7)
              case Fail => None
              case Got(exports, end) =>
                if end == [] then Some(Module(types, imports, memories, globals, exports)) else None
  }
}
