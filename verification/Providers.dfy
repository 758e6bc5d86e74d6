/** The loops that print a provider module. */
module Providers {
  import opened Wrappers
  import opened Bytes
  import opened Leb128Spec
  import opened WasmBinary
  import opened ProviderSpec
  import opened ProviderTheorems

  /** The argument is a 64-bit value or a length, which always is one. */
  method AppendULEB128(dst: seq<byte>, value: nat) returns (r: seq<byte>)
    ensures r == dst + Unsigned(value)
  {
    var v := value;
    r := dst;
    while true
      invariant dst + Unsigned(value) == r + Unsigned(v)
      decreases v
    {
      var b := v % 128;
      ghost var was := v;
      v := v / 128;
      if v != 0 {
        b := b + 128;
        assert r + Unsigned(was) == r + [b] + Unsigned(v);
      }
      r := r + [b];
      if v == 0 {
        return;
      }
    }
  }

  method AppendSLEB128(dst: seq<byte>, value: int) returns (r: seq<byte>)
    requires InRange(value, WORD64)
    ensures r == dst + Signed(value)
  {
    var v := value;
    r := dst;
    while true
      invariant dst + Signed(value) == r + Signed(v)
      decreases if v < 0 then -v else v
    {
      var b := v % 128;
      ghost var was := v;
      v := v / 128;
      var signBitSet := b >= 64;
      if (v == 0 && !signBitSet) || (v == -1 && signBitSet) {
        r := r + [b];
        return;
      }
      assert r + Signed(was) == r + [b + 128] + Signed(v);
      r := r + [b + 128];
    }
  }

  method AppendName(dst: seq<byte>, name: seq<byte>) returns (r: seq<byte>)
    ensures r == dst + NameBytes(name)
  {
    r := AppendULEB128(dst, |name|);
    r := r + name;
  }

  method AppendSection(dst: seq<byte>, id: byte, body: seq<byte>) returns (r: seq<byte>)
    ensures r == dst + Section(id, body)
  {
    r := AppendULEB128(dst + [id], |body|);
    r := r + body;
  }

  method EncodeFuncType(params: seq<byte>, results: seq<byte>) returns (r: seq<byte>)
    ensures r == FuncTypeBytes(FuncType(params, results))
  {
    r := AppendULEB128([0x60], |params|);
    r := r + params;
    r := AppendULEB128(r, |results|);
    r := r + results;
  }

  method ConstExpr(v: ScalarValue) returns (r: seq<byte>)
    ensures r == InitBytes(InitOf(v))
  {
    hide Signed;
    match v.scalar {
      case TypeI32 =>
        WrapInRange(v.bits, WORD32);
        r := AppendSLEB128([0x41], Wrap(v.bits, WORD32));
      case TypeI64 =>
        WrapInRange(v.bits, WORD64);
        r := AppendSLEB128([0x42], Wrap(v.bits, WORD64));
      case TypeF32 =>
        var bits := v.bits % WORD32;
        FourBytes(bits);
        r := [0x43] + [bits % 256, bits / 256 % 256, bits / 65536 % 256, bits / 16777216 % 256];
      case TypeF64 =>
        r := [0x44];
        var bits: nat := v.bits;
        for i := 0 to 8
          invariant [0x44] + LittleEndian(v.bits, 8) == r + LittleEndian(bits, 8 - i)
        {
          assert r + LittleEndian(bits, 8 - i) == r + [bits % 256] + LittleEndian(bits / 256, 7 - i);
          r := r + [bits % 256];
          bits := bits / 256;
        }
    }
    r := r + [0x0b];
  }

  lemma {:induction false} FourBytes(n: nat)
    ensures LittleEndian(n, 4) == [n % 256, n / 256 % 256, n / 65536 % 256, n / 16777216 % 256]
  {
    assert n / 256 / 256 == n / 65536 && n / 65536 / 256 == n / 16777216;
    assert LittleEndian(n / 16777216, 1) == [n / 16777216 % 256];
    assert LittleEndian(n / 65536, 2) == [n / 65536 % 256] + LittleEndian(n / 16777216, 1);
    assert LittleEndian(n / 256, 3) == [n / 256 % 256] + LittleEndian(n / 65536, 2);
  }

  lemma {:induction false} ConcatNext<T>(enc: T -> seq<byte>, xs: seq<T>, i: nat)
    requires i < |xs|
    ensures Concat(enc, xs[..i + 1]) == Concat(enc, xs[..i]) + enc(xs[i])
    decreases i
  {
    if i > 0 {
      ConcatNext(enc, xs[1..], i - 1);
      assert xs[..i + 1][1..] == xs[1..][..i] && xs[..i][1..] == xs[1..][..i - 1];
    } else {
      assert xs[..1][1..] == [] && xs[..0] == [];
    }
  }

  lemma {:induction false} NamePrefix(a: seq<byte>, x: seq<byte>, b: seq<byte>, y: seq<byte>)
    requires NameBytes(a) + x == NameBytes(b) + y
    ensures a == b && x == y
  {
    hide Unsigned;
    hide Terminator;
    var s := NameBytes(a) + x;
    UnsignedIsExact(|a|, a + x);
    UnsignedIsExact(|b|, b + y);
    assert s == Unsigned(|a|) + (a + x) && s == Unsigned(|b|) + (b + y);
    var n := |Unsigned(|a|)|;
    assert Unsigned(|a|) == s[..n] && Unsigned(|b|) == s[..n];
    assert a + x == s[n..] && b + y == s[n..];
    assert a == (a + x)[..|a|] && b == (b + y)[..|b|];
    assert x == (a + x)[|a|..] && y == (b + y)[|b|..];
  }

  /** Comparing encodings compares signatures. */
  lemma {:induction false} FuncTypeInjective(a: FuncType, b: FuncType)
    ensures FuncTypeBytes(a) == FuncTypeBytes(b) <==> a == b
  {
    hide NameBytes;
    if FuncTypeBytes(a) == FuncTypeBytes(b) {
      var x, y := NameBytes(a.params) + NameBytes(a.results), NameBytes(b.params) + NameBytes(b.results);
      assert FuncTypeBytes(a)[1..] == x && FuncTypeBytes(b)[1..] == y;
      NamePrefix(a.params, NameBytes(a.results), b.params, NameBytes(b.results));
      assert NameBytes(a.results) + [] == NameBytes(b.results) + [];
      NamePrefix(a.results, [], b.results, []);
    }
  }

  predicate Prints(bytes: seq<seq<byte>>, types: seq<FuncType>) {
    |bytes| == |types| && forall k :: 0 <= k < |types| ==> bytes[k] == FuncTypeBytes(types[k])
  }

  /** The position of a signature among the printed ones, or -1. */
  method FindType(types: seq<seq<byte>>, ft: seq<byte>, ghost known: seq<FuncType>, ghost t: FuncType) returns (found: int)
    requires Prints(types, known) && ft == FuncTypeBytes(t)
    ensures found == if IndexIn(known, t) < |known| then IndexIn(known, t) else -1
  {
    hide FuncTypeBytes;
    hide IndexIn;
    for j := 0 to |types|
      invariant forall k :: 0 <= k < j ==> known[k] != t
    {
      FuncTypeInjective(known[j], t);
      if types[j] == ft {
        return j;
      }
    }
    found := -1;
  }

  /** One type per distinct signature, and each function's index among them. */
  method CollectTypes(funcs: seq<ImportPlan>) returns (types: seq<seq<byte>>, typeIndex: seq<nat>)
    ensures Prints(types, DistinctTypes(funcs)) && |typeIndex| == |funcs|
    ensures forall i :: 0 <= i < |funcs| ==> typeIndex[i] == IndexIn(DistinctTypes(funcs), TypeOf(funcs[i]))
  {
    hide FuncTypeBytes;
    hide IndexIn;
    hide DistinctTypes;
    types, typeIndex := [], [];
    NoTypes(funcs);
    for i := 0 to |funcs|
      invariant Prints(types, DistinctTypes(funcs[..i])) && |typeIndex| == i
      invariant forall k :: 0 <= k < i ==> typeIndex[k] == IndexIn(DistinctTypes(funcs), TypeOf(funcs[k]))
    {
      ghost var known, t := DistinctTypes(funcs[..i]), TypeOf(funcs[i]);
      TypesStep(funcs, i);
      TypeIsListed(funcs, i);
      var ft := EncodeFuncType(funcs[i].paramTypes, funcs[i].resultTypes);
      var found := FindType(types, ft, known, t);
      if found < 0 {
        found := |types|;
        types := types + [ft];
        NewIndex(known, t);
      }
      typeIndex := typeIndex + [found];
    }
    assert funcs[..|funcs|] == funcs;
  }

  lemma {:induction false} NoTypes(funcs: seq<ImportPlan>)
    ensures DistinctTypes(funcs[..0]) == []
  {
  }

  lemma {:induction false} TypesStep(funcs: seq<ImportPlan>, i: nat)
    requires i < |funcs|
    ensures DistinctTypes(funcs[..i + 1]) == AddType(DistinctTypes(funcs[..i]), TypeOf(funcs[i]))
  {
    assert funcs[..i + 1][..i] == funcs[..i];
  }

  lemma {:induction false} NewIndex(known: seq<FuncType>, t: FuncType)
    requires IndexIn(known, t) == |known|
    ensures IndexIn(known + [t], t) == |known|
  {
    assert (known + [t])[|known|] == t;
  }

  method TypeSection(out: seq<byte>, types: seq<seq<byte>>, ghost known: seq<FuncType>) returns (r: seq<byte>)
    requires Prints(types, known)
    ensures r == out + Section(1, Vec(FuncTypeBytes, known))
  {
    hide FuncTypeBytes;
    var body := AppendULEB128([], |types|);
    assert known[..0] == [];
    for i := 0 to |types|
      invariant body == Unsigned(|types|) + Concat(FuncTypeBytes, known[..i])
    {
      ConcatNext(FuncTypeBytes, known, i);
      body := body + types[i];
    }
    assert known[..|known|] == known;
    r := AppendSection(out, 1, body);
  }

  method AppendImport(dst: seq<byte>, stubModule: seq<byte>, name: seq<byte>, typeIndex: nat) returns (r: seq<byte>)
    ensures r == dst + ImportBytes(Import(stubModule, name, typeIndex))
  {
    hide NameBytes;
    hide Unsigned;
    r := AppendName(dst, stubModule);
    r := AppendName(r, name);
    r := AppendULEB128(r + [0x00], typeIndex);
    assert r == dst + ImportBytes(Import(stubModule, name, typeIndex));
  }

  method AppendLimits(dst: seq<byte>, m: ImportedMemory) returns (r: seq<byte>)
    ensures r == dst + LimitsBytes(LimitsOf(m))
  {
    hide Unsigned;
    if m.maxPages.None? {
      r := AppendULEB128(dst + [0x00], m.minPages);
    } else {
      r := AppendULEB128(dst + [0x01], m.minPages);
      r := AppendULEB128(r, m.maxPages.value);
    }
  }

  method AppendExport(dst: seq<byte>, name: seq<byte>, kind: byte, index: nat) returns (r: seq<byte>)
    ensures r == dst + ExportBytes(Export(name, kind, index))
  {
    hide NameBytes;
    hide Unsigned;
    r := AppendName(dst, name);
    r := AppendULEB128(r + [kind], index);
  }

  method ImportSection(out: seq<byte>, funcs: seq<ImportPlan>, typeIndex: seq<nat>, stubModule: seq<byte>, ghost imports: seq<Import>)
    returns (r: seq<byte>)
    requires |typeIndex| == |funcs| == |imports|
    requires forall i :: 0 <= i < |funcs| ==> imports[i] == Import(stubModule, funcs[i].name, typeIndex[i])
    ensures r == out + Section(2, Vec(ImportBytes, imports))
  {
    hide ImportBytes;
    hide Unsigned;
    var body := AppendULEB128([], |funcs|);
    assert imports[..0] == [];
    for i := 0 to |funcs|
      invariant body == Unsigned(|funcs|) + Concat(ImportBytes, imports[..i])
    {
      ConcatNext(ImportBytes, imports, i);
      body := AppendImport(body, stubModule, funcs[i].name, typeIndex[i]);
    }
    assert imports[..|imports|] == imports;
    r := AppendSection(out, 2, body);
  }

  method MemorySection(out: seq<byte>, memories: seq<ImportedMemory>, ghost limits: seq<Limits>) returns (r: seq<byte>)
    requires |limits| == |memories| && forall i :: 0 <= i < |memories| ==> limits[i] == LimitsOf(memories[i])
    ensures r == out + Section(5, Vec(LimitsBytes, limits))
  {
    hide Unsigned;
    hide LimitsBytes;
    hide LimitsOf;
    var body := AppendULEB128([], |memories|);
    assert limits[..0] == [];
    for i := 0 to |memories|
      invariant body == Unsigned(|memories|) + Concat(LimitsBytes, limits[..i])
    {
      ConcatNext(LimitsBytes, limits, i);
      body := AppendLimits(body, memories[i]);
    }
    assert limits[..|limits|] == limits;
    r := AppendSection(out, 5, body);
  }

  method GlobalSection(out: seq<byte>, globals: seq<ImportedGlobal>) returns (r: Result<seq<byte>>)
    ensures r.Ok? <==> forall i :: 0 <= i < |globals| ==> globals[i].decoded.Ok?
    ensures r.Ok? ==> r.value == out + Section(6, Vec(GlobalBytes, GlobalsOf(globals)))
  {
    hide Unsigned;
    hide InitBytes;
    var body := AppendULEB128([], |globals|);
    ghost var done: seq<Global> := [];
    for i := 0 to |globals|
      invariant |done| == i
      invariant forall k :: 0 <= k < i ==>
                  globals[k].decoded.Ok? && done[k] == GlobalOf(globals[k], globals[k].decoded.value)
      invariant body == Unsigned(|globals|) + Concat(GlobalBytes, done)
    {
      var g := globals[i];
      if g.decoded.Err? {
        return Err;
      }
      var v := g.decoded.value;
      ghost var before, next := body, done + [GlobalOf(g, v)];
      ConcatNext(GlobalBytes, next, i);
      assert next[..i] == done && next[..i + 1] == next;
      var expr := ConstExpr(v);
      body := body + [ValueType(v.scalar)];
      body := body + [if g.mutable then 0x01 else 0x00] + expr;
      assert body == before + GlobalBytes(GlobalOf(g, v));
      done := next;
    }
    assert done == GlobalsOf(globals);
    var bytes := AppendSection(out, 6, body);
    r := Ok(bytes);
  }

  lemma {:induction false} NothingPrinted()
    ensures Concat(ExportBytes, []) == []
  {
  }

  lemma {:induction false} ExportAt(p: Provider)
    ensures var exports, nf, nm := DescribedExports(p), |p.funcs|, |p.memories|;
            && |exports| == nf + nm + |p.globals|
            && (forall i :: 0 <= i < nf ==> exports[i] == Export(p.funcs[i].name, 0x00, i))
            && (forall i :: 0 <= i < nm ==> exports[nf + i] == Export(p.memories[i].name, 0x02, i))
            && (forall i :: 0 <= i < |p.globals| ==> exports[nf + nm + i] == Export(p.globals[i].name, 0x03, i))
  {
  }

  lemma {:induction false} InOrder(m: Module)
    ensures ModuleBytes(m) ==
            MAGIC + OptionalSection(1, FuncTypeBytes, m.types) + OptionalSection(2, ImportBytes, m.imports)
            + OptionalSection(5, LimitsBytes, m.memories) + OptionalSection(6, GlobalBytes, m.globals)
            + Section(7, Vec(ExportBytes, m.exports))
  {
    hide OptionalSection;
    hide Section;
    var a, b := OptionalSection(1, FuncTypeBytes, m.types), OptionalSection(2, ImportBytes, m.imports);
    var c, d := OptionalSection(5, LimitsBytes, m.memories), OptionalSection(6, GlobalBytes, m.globals);
    var e := Section(7, Vec(ExportBytes, m.exports));
    assert MAGIC + (a + (b + (c + (d + e)))) == MAGIC + a + b + c + d + e;
  }

  method ExportSection(out: seq<byte>, p: Provider) returns (r: seq<byte>)
    ensures r == out + Section(7, Vec(ExportBytes, DescribedExports(p)))
  {
    hide Unsigned;
    hide ExportBytes;
    hide Concat;
    hide DescribedExports;
    ghost var exports := DescribedExports(p);
    ExportAt(p);
    var nf, nm, ng := |p.funcs|, |p.memories|, |p.globals|;
    var body := AppendULEB128([], nm + ng + nf);
    assert exports[..0] == [];
    NothingPrinted();
    for i := 0 to nf
      invariant body == Unsigned(|exports|) + Concat(ExportBytes, exports[..i])
    {
      ConcatNext(ExportBytes, exports, i);
      body := AppendExport(body, p.funcs[i].name, 0x00, i);
    }
    for i := 0 to nm
      invariant body == Unsigned(|exports|) + Concat(ExportBytes, exports[..nf + i])
    {
      ConcatNext(ExportBytes, exports, nf + i);
      body := AppendExport(body, p.memories[i].name, 0x02, i);
    }
    for i := 0 to ng
      invariant body == Unsigned(|exports|) + Concat(ExportBytes, exports[..nf + nm + i])
    {
      ConcatNext(ExportBytes, exports, nf + nm + i);
      body := AppendExport(body, p.globals[i].name, 0x03, i);
    }
    assert exports[..|exports|] == exports;
    r := AppendSection(out, 7, body);
  }

  /** The module's bytes: an error exactly when the provider is empty, has functions but no stub
      module, or has a global that does not parse; otherwise the described module, printed. */
  method Encode(p: Provider) returns (r: Result<seq<byte>>)
    ensures r == if Providable(p) then Ok(ModuleBytes(Described(p))) else Err
    ensures r.Err? <==>
              || (p.memories == [] && p.globals == [] && p.funcs == [])
              || (p.funcs != [] && p.stubModule == [])
              || exists i :: 0 <= i < |p.globals| && p.globals[i].decoded.Err?
  {
    hide Section;
    hide Vec;
    hide DescribedExports;
    hide DistinctTypes;
    hide IndexIn;
    if |p.memories| == 0 && |p.globals| == 0 && |p.funcs| == 0 {
      return Err;
    }
    var out := MAGIC;
    if |p.funcs| > 0 {
      if p.stubModule == [] {
        return Err;
      }
      var types, typeIndex := CollectTypes(p.funcs);
      ghost var known := DistinctTypes(p.funcs);
      TypeIsListed(p.funcs, 0);
      out := TypeSection(out, types, known);
      out := ImportSection(out, p.funcs, typeIndex, p.stubModule, ImportsOf(p));
    } else {
      assert p.funcs == p.funcs[..0];
      NoTypes(p.funcs);
    }
    assert out == MAGIC + OptionalSection(1, FuncTypeBytes, DistinctTypes(p.funcs)) + OptionalSection(2, ImportBytes, ImportsOf(p));
    ghost var functions := out;
    if |p.memories| > 0 {
      out := MemorySection(out, p.memories, MemoriesOf(p.memories));
    }
    assert out == functions + OptionalSection(5, LimitsBytes, MemoriesOf(p.memories));
    ghost var memories := out;
    if |p.globals| > 0 {
      var withGlobals := GlobalSection(out, p.globals);
      if withGlobals.Err? {
        return Err;
      }
      out := withGlobals.value;
    }
    assert out == memories + OptionalSection(6, GlobalBytes, GlobalsOf(p.globals));
    InOrder(Described(p));
    out := ExportSection(out, p);
    r := Ok(out);
  }
}
