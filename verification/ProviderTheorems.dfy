/** What a described module says, and that its bytes read back. */
module ProviderTheorems {
  import opened Wrappers
  import opened Bytes
  import opened Leb128Spec
  import opened WasmBinary
  import opened WasmRoundTrip
  import opened ProviderSpec

  predicate Distinct(types: seq<FuncType>) { forall i, j :: 0 <= i < j < |types| ==> types[i] != types[j] }

  predicate Lists(types: seq<FuncType>, t: FuncType) { IndexIn(types, t) < |types| }

  /** Appending types does not move the ones already there. */
  lemma {:induction false} IndexStays(types: seq<FuncType>, more: seq<FuncType>, t: FuncType)
    requires Lists(types, t)
    ensures IndexIn(types + more, t) == IndexIn(types, t)
  {
    var k, both := IndexIn(types, t), types + more;
    assert both[k] == t;
    assert forall j :: 0 <= j < k ==> both[j] == types[j];
  }

  lemma {:induction false} AddTypeExtends(types: seq<FuncType>, t: FuncType)
    ensures types <= AddType(types, t) && Lists(AddType(types, t), t)
    ensures Distinct(types) ==> Distinct(AddType(types, t))
  {
    if !Lists(types, t) {
      assert (types + [t])[|types|] == t;
    }
  }

  lemma {:induction false} TypesGrow(funcs: seq<ImportPlan>, n: nat)
    requires n <= |funcs|
    ensures DistinctTypes(funcs[..n]) <= DistinctTypes(funcs)
    decreases |funcs|
  {
    hide AddType;
    if n == |funcs| {
      assert funcs[..n] == funcs;
    } else {
      var init := funcs[..|funcs| - 1];
      TypesGrow(init, n);
      assert init[..n] == funcs[..n];
      AddTypeExtends(DistinctTypes(init), TypeOf(funcs[|funcs| - 1]));
    }
  }

  /** The type section has no duplicates. */
  lemma {:induction false} TypesAreDistinct(funcs: seq<ImportPlan>)
    ensures Distinct(DistinctTypes(funcs))
    decreases |funcs|
  {
    hide AddType;
    if funcs != [] {
      TypesAreDistinct(funcs[..|funcs| - 1]);
      AddTypeExtends(DistinctTypes(funcs[..|funcs| - 1]), TypeOf(funcs[|funcs| - 1]));
    }
  }

  /** It lists every function's signature, at the index it had when the function was reached. */
  lemma {:induction false} TypeIsListed(funcs: seq<ImportPlan>, i: nat)
    requires i < |funcs|
    ensures var t := TypeOf(funcs[i]);
            && Lists(DistinctTypes(funcs), t)
            && Lists(DistinctTypes(funcs[..i + 1]), t)
            && IndexIn(DistinctTypes(funcs[..i + 1]), t) == IndexIn(DistinctTypes(funcs), t)
  {
    var upTo, all, t := DistinctTypes(funcs[..i + 1]), DistinctTypes(funcs), TypeOf(funcs[i]);
    assert funcs[..i + 1][..i] == funcs[..i];
    hide AddType;
    AddTypeExtends(DistinctTypes(funcs[..i]), t);
    TypesGrow(funcs, i + 1);
    IndexStays(upTo, all[|upTo|..], t);
    assert upTo + all[|upTo|..] == all;
  }

  lemma {:induction false} TypesComeFromFunctions(funcs: seq<ImportPlan>, k: nat) returns (i: nat)
    requires k < |DistinctTypes(funcs)|
    ensures i < |funcs| && TypeOf(funcs[i]) == DistinctTypes(funcs)[k]
    decreases |funcs|
  {
    var last := |funcs| - 1;
    if k < |DistinctTypes(funcs[..last])| {
      i := TypesComeFromFunctions(funcs[..last], k);
    } else {
      i := last;
    }
  }

  /** The global has the type, mutability and initial value it was declared with: an integer is the
      two's complement number of its bits, a float its bits. */
  predicate Declares(g: Global, mutable: bool, v: ScalarValue) {
    && g.mutable == mutable
    && match v.scalar {
      case TypeI32 =>
        && g.valueType == 0x7f && g.init.I32? && -0x8000_0000 <= g.init.value < 0x8000_0000
        && g.init.value % 0x1_0000_0000 == v.bits % 0x1_0000_0000
      case TypeI64 =>
        && g.valueType == 0x7e && g.init.I64?
        && -0x8000_0000_0000_0000 <= g.init.value < 0x8000_0000_0000_0000
        && g.init.value % 0x1_0000_0000_0000_0000 == v.bits
      case TypeF32 => g.valueType == 0x7d && g.init == F32(v.bits % 0x1_0000_0000)
      case TypeF64 => g.valueType == 0x7c && g.init == F64(v.bits)
    }
  }

  lemma {:induction false} GlobalDeclares(g: ImportedGlobal, v: ScalarValue)
    ensures Declares(GlobalOf(g, v), g.mutable, v)
  {
    WrapInRange(v.bits, WORD32);
    WrapInRange(v.bits, WORD64);
    assert (v.bits % WORD32 - WORD32) % WORD32 == v.bits % WORD32;
    assert (v.bits % WORD64 - WORD64) % WORD64 == v.bits % WORD64;
  }

  /** Each function, memory and global is exported once, under its own name, at an index that carries
      its own type, limits or initial value. */
  lemma {:induction false} EverythingIsExported(p: Provider)
    requires Providable(p)
    ensures var m := Described(p);
            && Distinct(m.types)
            && |m.exports| == |p.funcs| + |p.memories| + |p.globals|
            && |m.imports| == |p.funcs| && |m.memories| == |p.memories| && |m.globals| == |p.globals|
    ensures forall i: nat :: i < |p.funcs| ==>
              var m, f := Described(p), p.funcs[i];
              && m.exports[i] == Export(f.name, 0x00, i)
              && m.imports[i].moduleName == p.stubModule && m.imports[i].name == f.name
              && m.imports[i].typeIndex < |m.types|
              && m.types[m.imports[i].typeIndex] == FuncType(f.paramTypes, f.resultTypes)
    ensures forall j: nat :: j < |p.memories| ==>
              var m := Described(p);
              && m.exports[|p.funcs| + j] == Export(p.memories[j].name, 0x02, j)
              && m.memories[j].min == p.memories[j].minPages
              && (m.memories[j].max.Some? <==> p.memories[j].maxPages.Some?)
              && (p.memories[j].maxPages.Some? ==> m.memories[j].max.value == p.memories[j].maxPages.value)
    ensures forall k: nat :: k < |p.globals| ==>
              var m := Described(p);
              && m.exports[|p.funcs| + |p.memories| + k] == Export(p.globals[k].name, 0x03, k)
              && Declares(m.globals[k], p.globals[k].mutable, p.globals[k].decoded.value)
  {
    forall k: nat | k < |p.globals|
      ensures Declares(Described(p).globals[k], p.globals[k].mutable, p.globals[k].decoded.value)
    {
      GlobalDeclares(p.globals[k], p.globals[k].decoded.value);
    }
    hide Declares;
    hide DistinctTypes;
    hide IndexIn;
    TypesAreDistinct(p.funcs);
    forall i: nat | i < |p.funcs|
      ensures Lists(DistinctTypes(p.funcs), TypeOf(p.funcs[i]))
    {
      TypeIsListed(p.funcs, i);
    }
  }

  lemma {:induction false} ItemInside<T>(enc: T -> seq<byte>, xs: seq<T>, i: nat)
    requires i < |xs|
    ensures |enc(xs[i])| <= |Concat(enc, xs)|
    decreases |xs|
  {
    if i > 0 { ItemInside(enc, xs[1..], i - 1); }
  }

  /** A provider whose bytes fit a 32-bit length is printed within the format's limits. */
  lemma {:induction false} PrintedWithinLimits(p: Provider)
    requires Providable(p) && Small(|ModuleBytes(Described(p))|)
    requires forall i :: 0 <= i < |p.funcs| ==> ValTypes(p.funcs[i].paramTypes) && ValTypes(p.funcs[i].resultTypes)
    ensures ModuleOk(Described(p))
  {
    hide Described;
    hide ModuleBytes;
    TypesOk(p);
    ImportsOk(p);
    MemoriesAndGlobalsOk(p);
    ExportsOk(p);
  }

  lemma {:induction false} SectionsInside(m: Module)
    ensures m.types != [] ==> |Concat(FuncTypeBytes, m.types)| <= |ModuleBytes(m)|
    ensures m.imports != [] ==> |Concat(ImportBytes, m.imports)| <= |ModuleBytes(m)|
    ensures |m.types| <= |ModuleBytes(m)|
    ensures |Concat(ExportBytes, m.exports)| <= |ModuleBytes(m)|
    ensures |m.exports| <= |ModuleBytes(m)|
  {
    hide Concat;
    hide FuncTypeBytes;
    hide ImportBytes;
    hide ExportBytes;
    hide GlobalBytes;
    hide LimitsBytes;
    hide Unsigned;
    ItemsAreNotEmpty();
    ConcatLength(FuncTypeBytes, m.types);
    ConcatLength(ExportBytes, m.exports);
  }

  lemma {:induction false} TypesOk(p: Provider)
    requires Providable(p) && Small(|ModuleBytes(Described(p))|)
    requires forall i :: 0 <= i < |p.funcs| ==> ValTypes(p.funcs[i].paramTypes) && ValTypes(p.funcs[i].resultTypes)
    ensures forall k :: 0 <= k < |Described(p).types| ==> FuncTypeOk(Described(p).types[k])
  {
    hide ModuleBytes;
    hide DistinctTypes;
    var m := Described(p);
    SectionsInside(m);
    forall k | 0 <= k < |m.types|
      ensures FuncTypeOk(m.types[k])
    {
      var i := TypesComeFromFunctions(p.funcs, k);
      ItemInside(FuncTypeBytes, m.types, k);
    }
  }

  lemma {:induction false} ImportsOk(p: Provider)
    requires Providable(p) && Small(|ModuleBytes(Described(p))|)
    ensures forall i :: 0 <= i < |Described(p).imports| ==> ImportOk(Described(p).imports[i])
  {
    hide ModuleBytes;
    hide DistinctTypes;
    hide IndexIn;
    var m := Described(p);
    SectionsInside(m);
    forall i | 0 <= i < |p.funcs|
      ensures ImportOk(m.imports[i])
    {
      TypeIsListed(p.funcs, i);
      ItemInside(ImportBytes, m.imports, i);
    }
  }

  lemma {:induction false} MemoriesAndGlobalsOk(p: Provider)
    requires Providable(p)
    ensures forall j :: 0 <= j < |Described(p).memories| ==> LimitsOk(Described(p).memories[j])
    ensures forall k :: 0 <= k < |Described(p).globals| ==> GlobalOk(Described(p).globals[k])
  {
    hide DistinctTypes;
    forall k | 0 <= k < |p.globals|
      ensures GlobalOk(Described(p).globals[k])
    {
      var v := p.globals[k].decoded.value;
      WrapInRange(v.bits, WORD32);
      WrapInRange(v.bits, WORD64);
    }
  }

  lemma {:induction false} ExportsOk(p: Provider)
    requires Providable(p) && Small(|ModuleBytes(Described(p))|)
    ensures forall i :: 0 <= i < |Described(p).exports| ==> ExportOk(Described(p).exports[i])
  {
    hide ModuleBytes;
    hide DistinctTypes;
    var m := Described(p);
    SectionsInside(m);
    forall i | 0 <= i < |m.exports|
      ensures ExportOk(m.exports[i])
    {
      ItemInside(ExportBytes, m.exports, i);
    }
  }

  /** Reading the provider's bytes gives back the module it describes. */
  lemma {:induction false} ProviderReadsBack(p: Provider)
    requires Providable(p) && Small(|ModuleBytes(Described(p))|)
    requires forall i :: 0 <= i < |p.funcs| ==> ValTypes(p.funcs[i].paramTypes) && ValTypes(p.funcs[i].resultTypes)
    ensures ReadModule(ModuleBytes(Described(p))) == Some(Described(p))
  {
    hide ModuleBytes;
    hide ReadModule;
    hide Described;
    PrintedWithinLimits(p);
    ModuleReadsBack(Described(p));
  }
}
