/** Reading undoes printing, item by item and for whole modules. */
module WasmRoundTrip {
  import opened Wrappers
  import opened Bytes
  import opened Leb128Spec
  import opened WasmBinary

  predicate Small(n: nat) { n < WORD32 }

  ghost predicate FuncTypeOk(t: FuncType) {
    ValTypes(t.params) && ValTypes(t.results) && Small(|t.params|) && Small(|t.results|)
  }

  ghost predicate ImportOk(i: Import) { Small(|i.moduleName|) && Small(|i.name|) && Small(i.typeIndex) }

  ghost predicate LimitsOk(l: Limits) { Small(l.min) && (l.max.Some? ==> Small(l.max.value)) }

  ghost predicate InitOk(i: Init) {
    match i
    case I32(v) => InRange(v, WORD32)
    case I64(v) => InRange(v, WORD64)
    case F32(bits) => bits < WORD32
    case F64(bits) => bits < WORD64
  }

  ghost predicate GlobalOk(g: Global) { ValType(g.valueType) && InitOk(g.init) }

  ghost predicate ExportOk(e: Export) { Small(|e.name|) && e.kind <= 3 && Small(e.index) }

  ghost predicate ModuleOk(m: Module) {
    && (forall i :: 0 <= i < |m.types| ==> FuncTypeOk(m.types[i]))
    && (forall i :: 0 <= i < |m.imports| ==> ImportOk(m.imports[i]))
    && (forall i :: 0 <= i < |m.memories| ==> LimitsOk(m.memories[i]))
    && (forall i :: 0 <= i < |m.globals| ==> GlobalOk(m.globals[i]))
    && (forall i :: 0 <= i < |m.exports| ==> ExportOk(m.exports[i]))
  }

  // ---- items -------------------------------------------------------------------------

  lemma {:induction false} U32(v: nat, rest: seq<byte>)
    requires Small(v)
    ensures ReadU32(Unsigned(v) + rest) == Got(v, rest)
  {
    hide Unsigned;
    hide DecodedUnsigned;
    Geometry();
    assert Pow128(5) == 128 * Pow128(4);
    UnsignedRoundTrip(v, 5, WORD32, rest);
    assert (Unsigned(v) + rest)[|Unsigned(v)|..] == rest;
  }

  lemma {:induction false} SignedInt(v: int, maxLen: nat, word: nat, room: nat, rest: seq<byte>)
    requires Fits(maxLen, word, room) && InRange(v, word)
    ensures ReadSigned(Signed(v) + rest, maxLen, word) == Got(v, rest)
  {
    hide Signed;
    hide SignedValue;
    hide Terminator;
    var s, n := Signed(v) + rest, |Signed(v)|;
    SignedIsExact(v, rest);
    ShortEnough(v, maxLen, word, room);
    assert s[..n] == Signed(v) && s[n..] == rest;
  }

  lemma {:induction false} Name(name: seq<byte>, rest: seq<byte>)
    requires Small(|name|)
    ensures ReadName(NameBytes(name) + rest) == Got(name, rest)
  {
    hide Unsigned;
    hide ReadU32;
    U32(|name|, name + rest);
    assert NameBytes(name) + rest == Unsigned(|name|) + (name + rest);
    assert (name + rest)[..|name|] == name && (name + rest)[|name|..] == rest;
  }

  lemma {:induction false} FuncTypes(t: FuncType, rest: seq<byte>)
    requires FuncTypeOk(t)
    ensures ReadFuncType(FuncTypeBytes(t) + rest) == Got(t, rest)
  {
    hide NameBytes;
    hide ReadName;
    var tail := NameBytes(t.results) + rest;
    var afterTag := NameBytes(t.params) + tail;
    assert FuncTypeBytes(t) + rest == [0x60] + afterTag;
    assert ([0x60] + afterTag)[1..] == afterTag;
    Name(t.params, tail);
    Name(t.results, rest);
  }

  lemma {:induction false} Imports(i: Import, rest: seq<byte>)
    requires ImportOk(i)
    ensures ReadImport(ImportBytes(i) + rest) == Got(i, rest)
  {
    hide NameBytes;
    hide ReadName;
    hide Unsigned;
    hide ReadU32;
    var afterKind := Unsigned(i.typeIndex) + rest;
    var afterName: seq<byte> := [0x00] + afterKind;
    var afterModule := NameBytes(i.name) + afterName;
    assert ImportBytes(i) + rest == NameBytes(i.moduleName) + afterModule;
    assert afterName[1..] == afterKind;
    Name(i.moduleName, afterModule);
    Name(i.name, afterName);
    U32(i.typeIndex, rest);
  }

  lemma {:induction false} Limit(l: Limits, rest: seq<byte>)
    requires LimitsOk(l)
    ensures ReadLimits(LimitsBytes(l) + rest) == Got(l, rest)
  {
    hide Unsigned;
    hide ReadU32;
    var tail := if l.max.Some? then Unsigned(l.max.value) + rest else rest;
    var tag: byte := if l.max.Some? then 1 else 0;
    assert LimitsBytes(l) + rest == [tag] + (Unsigned(l.min) + tail);
    assert ([tag] + (Unsigned(l.min) + tail))[1..] == Unsigned(l.min) + tail;
    U32(l.min, tail);
    if l.max.Some? {
      U32(l.max.value, rest);
    }
  }

  lemma {:induction false} Bits(n: nat, width: nat, rest: seq<byte>)
    requires n < Pow256(width)
    ensures ReadBytes(width, LittleEndian(n, width) + rest) == Got(LittleEndian(n, width), rest)
    ensures FromLittleEndian(LittleEndian(n, width)) == n
  {
    var s := LittleEndian(n, width) + rest;
    assert s[..width] == LittleEndian(n, width) && s[width..] == rest;
    LittleEndianRoundTrip(n, width);
  }

  lemma {:induction false} Const(i: Init, end: seq<byte>)
    requires InitOk(i)
    ensures ReadConst(ConstBytes(i) + end) == Got(i, end)
  {
    hide Signed;
    hide LittleEndian;
    hide FromLittleEndian;
    hide ReadSigned;
    hide Pow128;
    hide Pow256;
    Geometry();
    Widths();
    match i
    case I32(v) =>
      SignedInt(v, 5, WORD32, 8, end);
      Tagged(0x41, Signed(v), end);
    case I64(v) =>
      SignedInt(v, 10, WORD64, 1, end);
      Tagged(0x42, Signed(v), end);
    case F32(bits) =>
      Bits(bits, 4, end);
      Tagged(0x43, LittleEndian(bits, 4), end);
    case F64(bits) =>
      Bits(bits, 8, end);
      Tagged(0x44, LittleEndian(bits, 8), end);
  }

  lemma {:induction false} Tagged(tag: byte, body: seq<byte>, end: seq<byte>)
    ensures ([tag] + body + end)[0] == tag && ([tag] + body + end)[1..] == body + end
  {
  }

  lemma {:induction false} Globals(g: Global, rest: seq<byte>)
    requires GlobalOk(g)
    ensures ReadGlobal(GlobalBytes(g) + rest) == Got(g, rest)
  {
    hide ConstBytes;
    hide ReadConst;
    var end: seq<byte> := [0x0b] + rest;
    Const(g.init, end);
    assert end[1..] == rest;
    assert InitBytes(g.init) + rest == ConstBytes(g.init) + end;
    assert (GlobalBytes(g) + rest)[2..] == InitBytes(g.init) + rest;
  }

  lemma {:induction false} Exports(e: Export, rest: seq<byte>)
    requires ExportOk(e)
    ensures ReadExport(ExportBytes(e) + rest) == Got(e, rest)
  {
    hide NameBytes;
    hide ReadName;
    hide Unsigned;
    hide ReadU32;
    var afterName := [e.kind] + (Unsigned(e.index) + rest);
    assert ExportBytes(e) + rest == NameBytes(e.name) + afterName;
    assert afterName[1..] == Unsigned(e.index) + rest;
    Name(e.name, afterName);
    U32(e.index, rest);
  }

  // ---- vectors and sections ---------------------------------------------------------------

  ghost predicate ReadsBack<T(!new)>(p: seq<byte> -> Parsed<T>, enc: T -> seq<byte>, x: T) {
    forall rest: seq<byte> :: p(enc(x) + rest) == Got(x, rest)
  }

  lemma {:induction false} Times<T(!new)>(p: seq<byte> -> Parsed<T>, enc: T -> seq<byte>, xs: seq<T>, rest: seq<byte>)
    requires forall i :: 0 <= i < |xs| ==> ReadsBack(p, enc, xs[i])
    ensures ReadTimes(p, |xs|, Concat(enc, xs) + rest) == Got(xs, rest)
    decreases |xs|
  {
    if xs == [] {
      assert Concat(enc, xs) + rest == rest;
    } else {
      var tail := Concat(enc, xs[1..]) + rest;
      assert Concat(enc, xs) + rest == enc(xs[0]) + tail;
      hide Concat;
      assert p(enc(xs[0]) + tail) == Got(xs[0], tail) by { assert ReadsBack(p, enc, xs[0]); }
      hide ReadsBack;
      Times(p, enc, xs[1..], rest);
      assert [xs[0]] + xs[1..] == xs;
    }
  }

  lemma {:induction false} Sections<T(!new)>(id: byte, p: seq<byte> -> Parsed<T>, enc: T -> seq<byte>, xs: seq<T>, rest: seq<byte>)
    requires forall i :: 0 <= i < |xs| ==> ReadsBack(p, enc, xs[i])
    requires Small(|xs|) && Small(|Vec(enc, xs)|)
    ensures ReadSection(id, p, Section(id, Vec(enc, xs)) + rest) == Got(xs, rest)
  {
    hide Unsigned;
    hide ReadU32;
    hide ReadTimes;
    hide Concat;
    var body := Vec(enc, xs);
    var s := Section(id, body) + rest;
    assert s[1..] == Unsigned(|body|) + (body + rest);
    U32(|body|, body + rest);
    assert (body + rest)[..|body|] == body && (body + rest)[|body|..] == rest;
    U32(|xs|, Concat(enc, xs));
    Times(p, enc, xs, []);
    assert Concat(enc, xs) + [] == Concat(enc, xs);
  }

  lemma {:induction false} OptionalSections<T(!new)>(id: byte, p: seq<byte> -> Parsed<T>, enc: T -> seq<byte>, xs: seq<T>, rest: seq<byte>)
    requires forall i :: 0 <= i < |xs| ==> ReadsBack(p, enc, xs[i])
    requires Small(|xs|) && Small(|Vec(enc, xs)|)
    requires rest != [] ==> rest[0] != id
    ensures ReadSection(id, p, OptionalSection(id, enc, xs) + rest) == Got(xs, rest)
  {
    if xs == [] {
      assert [] + rest == rest;
    } else {
      hide ReadSection;
      Sections(id, p, enc, xs, rest);
    }
  }

  // ---- whole modules -------------------------------------------------------------------------

  lemma {:induction false} ItemsReadBack(m: Module)
    requires ModuleOk(m)
    ensures forall i :: 0 <= i < |m.types| ==> ReadsBack(ReadFuncType, FuncTypeBytes, m.types[i])
    ensures forall i :: 0 <= i < |m.imports| ==> ReadsBack(ReadImport, ImportBytes, m.imports[i])
    ensures forall i :: 0 <= i < |m.memories| ==> ReadsBack(ReadLimits, LimitsBytes, m.memories[i])
    ensures forall i :: 0 <= i < |m.globals| ==> ReadsBack(ReadGlobal, GlobalBytes, m.globals[i])
    ensures forall i :: 0 <= i < |m.exports| ==> ReadsBack(ReadExport, ExportBytes, m.exports[i])
  {
    forall t: FuncType, rest: seq<byte> | FuncTypeOk(t)
      ensures ReadFuncType(FuncTypeBytes(t) + rest) == Got(t, rest)
    {
      FuncTypes(t, rest);
    }
    forall t: Import, rest: seq<byte> | ImportOk(t)
      ensures ReadImport(ImportBytes(t) + rest) == Got(t, rest)
    {
      Imports(t, rest);
    }
    forall t: Limits, rest: seq<byte> | LimitsOk(t)
      ensures ReadLimits(LimitsBytes(t) + rest) == Got(t, rest)
    {
      Limit(t, rest);
    }
    forall t: Global, rest: seq<byte> | GlobalOk(t)
      ensures ReadGlobal(GlobalBytes(t) + rest) == Got(t, rest)
    {
      Globals(t, rest);
    }
    forall t: Export, rest: seq<byte> | ExportOk(t)
      ensures ReadExport(ExportBytes(t) + rest) == Got(t, rest)
    {
      Exports(t, rest);
    }
  }

  lemma {:induction false} ConcatLength<T(!new)>(enc: T -> seq<byte>, xs: seq<T>)
    requires forall x :: |enc(x)| >= 1
    ensures |Concat(enc, xs)| >= |xs|
    decreases |xs|
  {
    if xs != [] { ConcatLength(enc, xs[1..]); }
  }

  /** A section's size and count are no larger than the bytes it takes. */
  lemma {:induction false} SectionLength<T(!new)>(id: byte, enc: T -> seq<byte>, xs: seq<T>)
    requires forall x :: |enc(x)| >= 1
    ensures |Section(id, Vec(enc, xs))| >= |Vec(enc, xs)| >= |xs|
    ensures xs == [] ==> |Vec(enc, xs)| == 1
  {
    ConcatLength(enc, xs);
  }

  predicate StartsAfter(s: seq<byte>, id: byte) { s != [] && s[0] > id }

  lemma {:induction false} NextSection<T(!new)>(id: byte, p: seq<byte> -> Parsed<T>, enc: T -> seq<byte>, xs: seq<T>, rest: seq<byte>)
    requires forall i :: 0 <= i < |xs| ==> ReadsBack(p, enc, xs[i])
    requires forall x :: |enc(x)| >= 1
    requires Small(|OptionalSection(id, enc, xs) + rest|) && StartsAfter(rest, id)
    ensures ReadSection(id, p, OptionalSection(id, enc, xs) + rest) == Got(xs, rest)
    ensures forall before: byte :: before < id ==> StartsAfter(OptionalSection(id, enc, xs) + rest, before)
    ensures Small(|rest|)
  {
    hide ReadSection;
    hide Vec;
    SectionLength(id, enc, xs);
    OptionalSections(id, p, enc, xs, rest);
    assert xs != [] ==> (OptionalSection(id, enc, xs) + rest)[0] == id;
  }

  lemma {:induction false} ItemsAreNotEmpty()
    ensures forall t: FuncType :: |FuncTypeBytes(t)| >= 1
    ensures forall t: Import :: |ImportBytes(t)| >= 1
    ensures forall t: Limits :: |LimitsBytes(t)| >= 1
    ensures forall t: Global :: |GlobalBytes(t)| >= 1
    ensures forall t: Export :: |ExportBytes(t)| >= 1
  {
  }

  /** A module's bytes read back as the module: every section in its place, nothing left over. */
  lemma {:induction false} ModuleReadsBack(m: Module)
    requires ModuleOk(m) && Small(|ModuleBytes(m)|)
    ensures ReadModule(ModuleBytes(m)) == Some(m)
  {
    hide ReadSection;
    hide OptionalSection;
    hide Section;
    hide FuncTypeBytes;
    hide ImportBytes;
    hide LimitsBytes;
    hide GlobalBytes;
    hide ExportBytes;
    ItemsReadBack(m);
    ItemsAreNotEmpty();
    var s7 := Section(7, Vec(ExportBytes, m.exports));
    var s6 := OptionalSection(6, GlobalBytes, m.globals) + s7;
    var s5 := OptionalSection(5, LimitsBytes, m.memories) + s6;
    var s2 := OptionalSection(2, ImportBytes, m.imports) + s5;
    var s1 := OptionalSection(1, FuncTypeBytes, m.types) + s2;
    assert ModuleBytes(m) == MAGIC + s1 && (MAGIC + s1)[|MAGIC|..] == s1;
    LastSection(m.exports);
    NextSection(6, ReadGlobal, GlobalBytes, m.globals, s7);
    NextSection(5, ReadLimits, LimitsBytes, m.memories, s6);
    NextSection(2, ReadImport, ImportBytes, m.imports, s5);
    NextSection(1, ReadFuncType, FuncTypeBytes, m.types, s2);
  }

  lemma {:induction false} LastSection(xs: seq<Export>)
    requires forall i :: 0 <= i < |xs| ==> ReadsBack(ReadExport, ExportBytes, xs[i])
    requires Small(|Section(7, Vec(ExportBytes, xs))|)
    ensures ReadSection(7, ReadExport, Section(7, Vec(ExportBytes, xs))) == Got(xs, [])
    ensures StartsAfter(Section(7, Vec(ExportBytes, xs)), 6)
  {
    hide ReadSection;
    hide Vec;
    ItemsAreNotEmpty();
    SectionLength(7, ExportBytes, xs);
    Sections(7, ReadExport, ExportBytes, xs, []);
    var s := Section(7, Vec(ExportBytes, xs));
    assert s + [] == s;
  }
}
