/** The finished file and the stream (internal/boundarylog/recording.go:240-274, stream.go:1-60). Loading
    a finished recording reads the whole document at once; the stream reader splits the same bytes itself.
    The two splits differ, and this is exactly where. */
module BatchLoad {
  import opened Wrappers
  import opened Crossings
  import opened AssemblerSpec
  import opened JsonTokens
  import opened ScannerSpec
  import opened ScannerProofs
  import opened ScannerPrinting
  import opened JsonArray
  import opened StreamSpec
  import opened StreamTheorems

  function EntryValues(es: seq<Entry>): seq<Value> {
    if es == [] then [] else [es[0].value] + EntryValues(es[1..])
  }

  /** The elements of the slice a document decodes to. */
  function ValuesOf(d: Document): seq<Value> { if d.NullDocument? then [] else EntryValues(d.entries) }

  /** A `null` leaves the record empty; an object is decoded. */
  function DecodeValue(decode: Decoder, v: Value): Option<Record> {
    if v.NullValue? then Some(Unknown) else decode(PrintObject(v.text))
  }

  function DecodeValues(decode: Decoder, vs: seq<Value>): Option<seq<Record>> {
    if vs == [] then Some([])
    else
      match (DecodeValue(decode, vs[0]), DecodeValues(decode, vs[1..]))
      case (Some(ev), Some(evs)) => Some([ev] + evs)
      case _ => None
  }

  /** LoadRecording: the document, its records, and the crossings recovered from them. */
  function Load(decode: Decoder, bytes: seq<byte>): (out: Result<Asm>)
    ensures out.Ok? ==> Shape(out.value)
  {
    match ReadDocument(bytes)
    case None => Err
    case Some(d) =>
      match DecodeValues(decode, ValuesOf(d))
      case None => Err
      case Some(evs) => Reconstruct(evs)
  }

  predicate AllObjects(es: seq<Entry>) { forall k :: 0 <= k < |es| ==> es[k].value.ObjectValue? }

  /** An array of objects only, one comma between each and the next, and white space after it. */
  predicate Strict(bytes: seq<byte>) {
    var d := ReadDocument(bytes);
    d.Some? && d.value.ArrayDocument? && AllObjects(d.value.entries)
  }

  // ---- scanning a document -------------------------------------------------------

  function Texts(es: seq<Entry>): seq<seq<byte>>
    requires AllObjects(es)
  {
    if es == [] then [] else [PrintObject(es[0].value.text)] + Texts(es[1..])
  }

  lemma {:induction false} SpacesSeparate(bytes: seq<byte>)
    requires Spaces(bytes)
    ensures AllSeparators(bytes)
  {
  }

  /** Between elements a `null` is an error. */
  lemma {:induction false} NullFails(p: Phase, tail: seq<byte>)
    requires p.Before? || p.Between?
    ensures ScanBytes(p, NULL + tail).phase.Bad?
  {
    assert (NULL + tail)[0] == NULL[0];
    assert Step(p, NULL[0]).Bad?;
  }

  /** One entry scans to its object, or fails at its `null`. */
  lemma {:induction false} EntryScans(e: Entry, tail: seq<byte>)
    requires ValidEntry(e)
    ensures var r := ScanBytes(Between, e.before + PrintValue(e.value) + e.after + tail);
            if e.value.NullValue? then r.phase.Bad?
            else r == ScanBytes(Between, tail).(elems := [PrintObject(e.value.text)] + ScanBytes(Between, tail).elems)
  {
    hide ScanBytes;
    var text := PrintValue(e.value);
    SpacesSeparate(e.before);
    SpacesSeparate(e.after);
    SkipSeparators(e.before);
    SkipSeparators(e.after);
    var rest := e.after + tail;
    assert e.before + text + e.after + tail == e.before + (text + rest);
    RunAppend(Between, e.before, text + rest);
    if e.value.NullValue? {
      NullFails(Between, rest);
    } else {
      OneElement(e.value.text);
      RunAppend(Between, text, rest);
      RunAppend(Between, e.after, tail);
    }
  }

  lemma {:induction false} CommaSkips(tail: seq<byte>)
    ensures ScanBytes(Between, [VALUE_SEPARATOR] + tail) == ScanBytes(Between, tail)
  {
    assert ([VALUE_SEPARATOR] + tail)[1..] == tail;
  }

  lemma {:induction false} EntriesScan(es: seq<Entry>, tail: seq<byte>)
    requires ValidEntries(es)
    ensures var r := ScanBytes(Between, PrintEntries(es) + tail);
            if AllObjects(es) then r == ScanBytes(Between, tail).(elems := Texts(es) + ScanBytes(Between, tail).elems)
            else r.phase.Bad?
    decreases |es|
  {
    hide ScanBytes;
    hide PrintValue;
    hide PrintEntries;
    hide AllObjects;
    ObjectsCons(es);
    if es == [] {
      NoEntries();
      assert [] + tail == tail;
      assert [] + ScanBytes(Between, tail).elems == ScanBytes(Between, tail).elems;
    } else {
      var e, rest := es[0], PrintEntries(es[1..]) + tail;
      EntriesScan(es[1..], tail);
      var more := if |es| == 1 then tail else [VALUE_SEPARATOR] + rest;
      OneThenMore(es, tail);
      CommaSkips(rest);
      EntryScans(e, more);
      if AllObjects(es) {
        Reassociate(PrintObject(e.value.text), Texts(es[1..]), ScanBytes(Between, tail).elems);
      }
    }
  }

  lemma {:induction false} ObjectsCons(es: seq<Entry>)
    ensures es == [] ==> AllObjects(es)
    ensures es != [] ==> (AllObjects(es) <==> es[0].value.ObjectValue? && AllObjects(es[1..]))
  {
    if es != [] {
      assert forall k :: 1 <= k < |es| ==> es[k] == es[1..][k - 1];
    }
  }

  lemma {:induction false} OneThenMore(es: seq<Entry>, tail: seq<byte>)
    requires es != []
    ensures var rest := PrintEntries(es[1..]) + tail;
            && PrintEntries(es) + tail ==
               es[0].before + PrintValue(es[0].value) + es[0].after + (if |es| == 1 then tail else [VALUE_SEPARATOR] + rest)
            && (|es| == 1 ==> rest == tail)
  {
    hide PrintValue;
    var text, rest := es[0].before + PrintValue(es[0].value) + es[0].after, PrintEntries(es[1..]) + tail;
    if |es| == 1 {
      assert es[1..] == [];
      assert text + [] == text && [] + tail == tail;
    } else {
      assert text + ([VALUE_SEPARATOR] + PrintEntries(es[1..])) + tail == text + ([VALUE_SEPARATOR] + rest);
    }
  }

  lemma {:induction false} Reassociate(x: seq<byte>, a: seq<seq<byte>>, b: seq<seq<byte>>)
    ensures [x] + (a + b) == [x] + a + b
  {
  }

  /** The scanner takes a document apart as the reader does, unless there is a `null` in it. */
  lemma {:induction false} DocumentScans(bytes: seq<byte>)
    requires ReadDocument(bytes).Some?
    ensures var d := ReadDocument(bytes).value;
            var r := ScanBytes(Before, bytes);
            if Strict(bytes) then r == Scan(Texts(d.entries), Closed, d.trail) && Spaces(d.trail) else r.phase.Bad?
  {
    hide ReadDocument;
    hide ScanBytes;
    hide PrintEntries;
    DocumentPrinted(bytes);
    var d := ReadDocument(bytes).value;
    SkipSpaces(d.lead);
    if d.NullDocument? {
      assert d.lead + NULL + d.trail == d.lead + (NULL + d.trail);
      RunAppend(Before, d.lead, NULL + d.trail);
      NullFails(Before, d.trail);
    } else {
      var close := [END_ARRAY] + d.trail;
      var inside := d.blank + (PrintEntries(d.entries) + close);
      assert bytes == d.lead + ([BEGIN_ARRAY] + inside);
      RunAppend(Before, d.lead, [BEGIN_ARRAY] + inside);
      Brackets(inside, d.trail);
      SpacesSeparate(d.blank);
      SkipSeparators(d.blank);
      RunAppend(Between, d.blank, PrintEntries(d.entries) + close);
      EntriesScan(d.entries, close);
      if AllObjects(d.entries) {
        assert Texts(d.entries) + [] == Texts(d.entries);
      }
    }
  }

  lemma {:induction false} Brackets(inside: seq<byte>, trail: seq<byte>)
    ensures ScanBytes(Before, [BEGIN_ARRAY] + inside) == ScanBytes(Between, inside)
    ensures ScanBytes(Between, [END_ARRAY] + trail) == Scan([], Closed, trail)
  {
    assert ([BEGIN_ARRAY] + inside)[1..] == inside && ([END_ARRAY] + trail)[1..] == trail;
  }

  lemma {:induction false} DecodeTexts(decode: Decoder, es: seq<Entry>)
    requires AllObjects(es)
    ensures DecodeValues(decode, EntryValues(es)) == DecodeAll(decode, Texts(es))
    decreases |es|
  {
    if es != [] {
      assert AllObjects(es[1..]);
      DecodeTexts(decode, es[1..]);
      assert EntryValues(es)[1..] == EntryValues(es[1..]) && Texts(es)[1..] == Texts(es[1..]);
    }
  }

  // ---- the theorem -----------------------------------------------------------------

  /** On a strict document one pass of the scanner gives what loading the file gives. */
  lemma {:induction false} LoadIsOnePass(decode: Decoder, bytes: seq<byte>)
    requires Strict(bytes)
    ensures Load(decode, bytes) == OnePass(decode, bytes)
  {
    hide ReadDocument;
    hide ScanBytes;
    hide Reconstruct;
    DocumentScans(bytes);
    DecodeTexts(decode, ReadDocument(bytes).value.entries);
  }

  /** For every way the bytes arrive. On a strict document the stream ends cleanly if and only if the
      finished file loads (and no read fails), and then the call groups handed out are the file's, their
      concatenation its crossings. On any other bytes at most one of the two readers accepts. */
  lemma {:induction false} StreamAgainstFile(decode: Decoder, src: seq<Read>)
    ensures var f, b, strict := Stream(decode, src), Load(decode, BytesOf(src)), Strict(BytesOf(src));
            && (strict ==> (f.end.Clean? <==> b.Ok? && Intact(src)))
            && (!strict ==> !(f.end.Clean? && b.Ok?))
            && (f.end.Clean? && b.Ok? ==> f.groups == GroupsFrom(b.value, 0) && Concat(f.groups) == b.value.crossings)
  {
    hide Stream;
    hide ReadDocument;
    hide ScanBytes;
    hide Intact;
    hide Reconstruct;
    var bytes := BytesOf(src);
    StreamIsOnePass(decode, src);
    if ReadDocument(bytes).Some? {
      DocumentScans(bytes);
      if Strict(bytes) {
        LoadIsOnePass(decode, bytes);
        SpacesSeparate(ReadDocument(bytes).value.trail);
      }
    }
  }

  /** Where a strict document is closed: the position after its closing bracket. */
  function ClosedAt(bytes: seq<byte>): (n: nat)
    requires Strict(bytes)
    ensures 0 < n <= |bytes| && bytes[n - 1] == END_ARRAY && Spaces(bytes[n..])
  {
    DocumentPrinted(bytes);
    var d := ReadDocument(bytes).value;
    assert bytes == d.lead + [BEGIN_ARRAY] + (d.blank + PrintEntries(d.entries)) + [END_ARRAY] + d.trail;
    assert bytes[|bytes| - |d.trail|..] == d.trail;
    |bytes| - |d.trail|
  }

  /** Cutting a file that loads anywhere before its closing bracket: however the rest arrives, a prefix
      of the file's call groups is handed out, followed by a truncation that says how many. */
  lemma {:induction false} CutFile(decode: Decoder, whole: seq<byte>, cut: nat, src: seq<Read>)
    requires Strict(whole) && Load(decode, whole).Ok? && cut < ClosedAt(whole)
    requires Intact(src) && BytesOf(src) == whole[..cut]
    ensures OnePass(decode, whole) == Load(decode, whole)
    ensures var f, b := Stream(decode, src), Load(decode, whole).value;
            && f.groups <= GroupsFrom(b, 0)
            && f.end.Stopped? && f.end.failure.Truncated? && f.end.failure.groups == |f.groups|
  {
    hide Stream;
    hide ReadDocument;
    hide ScanBytes;
    hide Intact;
    hide Reconstruct;
    LoadIsOnePass(decode, whole);
    DocumentScans(whole);
    assert whole[..cut] + whole[cut..] == whole;
    RunAppend(Before, whole[..cut], whole[cut..]);
    TruncationIsSafe(decode, whole, cut, src);
  }

  // ---- where they differ --------------------------------------------------------------

  const EMPTY_OBJECT: seq<byte> := [BEGIN_OBJECT, END_OBJECT]

  /** `[{},,{}]` */
  const DOUBLED: seq<byte> := [BEGIN_ARRAY] + EMPTY_OBJECT + [VALUE_SEPARATOR, VALUE_SEPARATOR] + EMPTY_OBJECT + [END_ARRAY]

  lemma {:induction false} EmptyRecords(n: nat)
    ensures PushAll(EMPTY, seq(n, _ => Unknown)) == Ok(EMPTY)
    decreases n
  {
    var evs := seq(n, _ => Unknown);
    if n > 0 {
      EmptyRecords(n - 1);
      assert evs[1..] == seq(n - 1, _ => Unknown);
      assert Push(EMPTY, evs[0]) == Ok(EMPTY);
    }
  }

  lemma {:induction false} DoubledIsScanned()
    ensures ScanBytes(Before, DOUBLED) == Scan([EMPTY_OBJECT, EMPTY_OBJECT], Closed, [])
  {
    hide ScanBytes;
    var first, second := Item([], End), Item([VALUE_SEPARATOR, VALUE_SEPARATOR], End);
    var items := [first, second];
    assert PrintObject(End) == EMPTY_OBJECT;
    assert items[1..] == [second] && [second][1..] == [];
    assert PrintItems([]) == [] && PrintItems([second]) == [VALUE_SEPARATOR, VALUE_SEPARATOR] + EMPTY_OBJECT;
    assert PrintItems(items) == EMPTY_OBJECT + [VALUE_SEPARATOR, VALUE_SEPARATOR] + EMPTY_OBJECT;
    assert Printed([]) == [] && Printed([second]) == [EMPTY_OBJECT];
    assert Printed(items) == [EMPTY_OBJECT, EMPTY_OBJECT];
    ScanUndoesPrinting([], items, [], []);
    assert PrintArray([], items, []) + [] == DOUBLED;
  }

  /** No value starts with a comma. */
  lemma {:induction false} CommaIsNoEntry(more: seq<byte>)
    ensures ReadEntries([VALUE_SEPARATOR] + more).Fail?
  {
    hide ReadText;
    hide ReadSpaces;
    SpacesRead([], [VALUE_SEPARATOR] + more);
    assert [] + ([VALUE_SEPARATOR] + more) == [VALUE_SEPARATOR] + more;
  }

  /** An empty object, a comma, and bytes that are no entries. */
  lemma {:induction false} ThenNoEntries(more: seq<byte>)
    requires ReadEntries(more).Fail?
    ensures ReadEntries(EMPTY_OBJECT + ([VALUE_SEPARATOR] + more)).Fail?
  {
    hide ReadEntry;
    var e, rest := Entry([], ObjectValue(End), []), [VALUE_SEPARATOR] + more;
    EntryRead(e, rest);
    assert PrintObject(End) == EMPTY_OBJECT;
    assert e.before + PrintValue(e.value) + e.after + rest == EMPTY_OBJECT + rest;
    assert rest[1..] == more;
  }

  lemma {:induction false} DoubledIsNotRead()
    ensures ReadDocument(DOUBLED) == None
  {
    hide ReadSpaces;
    hide ReadEntries;
    var more: seq<byte> := EMPTY_OBJECT + [END_ARRAY];
    var inside := EMPTY_OBJECT + ([VALUE_SEPARATOR] + ([VALUE_SEPARATOR] + more));
    CommaIsNoEntry(more);
    ThenNoEntries([VALUE_SEPARATOR] + more);
    SpacesRead([], DOUBLED);
    assert [] + DOUBLED == DOUBLED && DOUBLED[1..] == inside;
    SpacesRead([], inside);
    assert [] + inside == inside;
  }

  /** `[{},,{}]`, however it arrives: the stream skips both commas, the file reader refuses. */
  lemma {:induction false} DoubledComma(decode: Decoder, src: seq<Read>)
    requires decode(EMPTY_OBJECT) == Some(Unknown) && BytesOf(src) == DOUBLED && Intact(src)
    ensures Stream(decode, src).end.Clean? && Load(decode, DOUBLED).Err?
  {
    hide Stream;
    hide ScanBytes;
    hide ReadDocument;
    hide Intact;
    StreamIsOnePass(decode, src);
    DoubledIsScanned();
    DoubledIsNotRead();
    var elems: seq<seq<byte>> := [EMPTY_OBJECT, EMPTY_OBJECT];
    assert elems[1..] == [EMPTY_OBJECT] && elems[1..][1..] == [];
    var none: seq<Record> := [];
    assert DecodeAll(decode, []) == Some(none) && [Unknown] + none == [Unknown];
    assert [EMPTY_OBJECT][1..] == [] && DecodeAll(decode, [EMPTY_OBJECT]) == Some([Unknown]);
    assert [Unknown] + [Unknown] == [Unknown, Unknown];
    EmptyRecords(2);
    assert seq(2, _ => Unknown) == [Unknown, Unknown];
  }

  lemma {:induction false} NothingFinishes()
    ensures Finish(EMPTY).Ok?
  {}

  lemma {:induction false} NullIsRead()
    ensures ReadDocument([BEGIN_ARRAY] + NULL + [END_ARRAY]) ==
            Some(ArrayDocument([], [], [Entry([], NullValue, [])], []))
  {
    hide ReadDocument;
    var e := Entry([], NullValue, []);
    var d := ArrayDocument([], [], [e], []);
    assert [e][1..] == [];
    assert PrintEntries([e]) == NULL;
    assert PrintDocument(d) == [BEGIN_ARRAY] + NULL + [END_ARRAY];
    DocumentRead(d);
  }

  /** `[null]`, however it arrives: an empty record to the file reader, an error to the stream. */
  lemma {:induction false} NullElement(decode: Decoder, src: seq<Read>)
    requires BytesOf(src) == [BEGIN_ARRAY] + NULL + [END_ARRAY]
    ensures Load(decode, BytesOf(src)).Ok? && !Stream(decode, src).end.Clean?
  {
    hide Stream;
    hide ReadDocument;
    hide Intact;
    hide PushAll;
    hide Finish;
    NullIsRead();
    var e := Entry([], NullValue, []);
    var none: seq<Record> := [];
    assert [e][1..] == [] && EntryValues([e]) == [NullValue] && [NullValue][1..] == [];
    assert DecodeValues(decode, []) == Some(none) && [Unknown] + none == [Unknown];
    EmptyRecords(1);
    assert seq(1, _ => Unknown) == [Unknown];
    NothingFinishes();
    StreamAgainstFile(decode, src);
  }
}
