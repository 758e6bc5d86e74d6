/** A whole recording as encoding/json takes it (internal/boundarylog/recording.go:246-256): one array of
    objects, with exactly one comma between them and white space around the tokens. A `null` stands for
    an empty record, and for an empty array. The reader here is a recursive descent over that grammar;
    it shares nothing with the scanner that splits a growing array. */
module JsonArray {
  import opened Wrappers
  import opened Bytes
  import opened JsonTokens
  import opened ScannerSpec
  import opened ScannerPrinting

  datatype Value = ObjectValue(text: Text) | NullValue

  /** A value and the white space around it. */
  datatype Entry = Entry(before: seq<byte>, value: Value, after: seq<byte>)

  datatype Document =
    | ArrayDocument(lead: seq<byte>, blank: seq<byte>, entries: seq<Entry>, trail: seq<byte>)
    | NullDocument(lead: seq<byte>, trail: seq<byte>)

  const NULL: seq<byte> := [0x6e, 0x75, 0x6c, 0x6c]

  predicate Spaces(bytes: seq<byte>) { forall k :: 0 <= k < |bytes| ==> IsWhitespace(bytes[k]) }

  predicate ValidValue(v: Value) { v.ObjectValue? ==> ValidText(v.text) }

  predicate ValidEntry(e: Entry) { Spaces(e.before) && ValidValue(e.value) && Spaces(e.after) }

  predicate ValidEntries(es: seq<Entry>) { forall k :: 0 <= k < |es| ==> ValidEntry(es[k]) }

  /** `blank` is what stands between the brackets of an empty array. */
  predicate ValidDocument(d: Document) {
    && Spaces(d.lead) && Spaces(d.trail)
    && (d.ArrayDocument? ==> Spaces(d.blank) && ValidEntries(d.entries) && (d.entries != [] ==> d.blank == []))
  }

  function PrintValue(v: Value): seq<byte> { if v.NullValue? then NULL else PrintObject(v.text) }

  function PrintEntries(es: seq<Entry>): seq<byte> {
    if es == [] then []
    else es[0].before + PrintValue(es[0].value) + es[0].after + (if |es| == 1 then [] else [VALUE_SEPARATOR] + PrintEntries(es[1..]))
  }

  function PrintDocument(d: Document): seq<byte> {
    match d
    case ArrayDocument(lead, blank, entries, trail) =>
      lead + [BEGIN_ARRAY] + (blank + PrintEntries(entries)) + [END_ARRAY] + trail
    case NullDocument(lead, trail) => lead + NULL + trail
  }

  // ---- reading -------------------------------------------------------------------

  function ReadSpaces(bytes: seq<byte>): (r: (seq<byte>, seq<byte>))
    ensures r.0 + r.1 == bytes && Spaces(r.0) && (r.1 != [] ==> !IsWhitespace(r.1[0]))
  {
    if bytes == [] || !IsWhitespace(bytes[0]) then ([], bytes)
    else
      var r := ReadSpaces(bytes[1..]);
      ([bytes[0]] + r.0, r.1)
  }

  /** The characters of a string up to its closing quote. */
  function ReadChars(bytes: seq<byte>): (r: Parsed<seq<StringChar>>)
    ensures r.Got? ==> |r.rest| < |bytes|
    decreases |bytes|
  {
    if bytes == [] then Fail
    else if bytes[0] == QUOTATION_MARK then Got([], bytes[1..])
    else if bytes[0] == ESCAPE then
      if |bytes| < 2 then Fail
      else
        match ReadChars(bytes[2..])
        case Fail => Fail
        case Got(cs, rest) => Got([Escaped(bytes[1])] + cs, rest)
    else
      match ReadChars(bytes[1..])
      case Fail => Fail
      case Got(cs, rest) => Got([Raw(bytes[0])] + cs, rest)
  }

  /** What stands between the braces of an object, up to its closing brace. */
  function ReadText(bytes: seq<byte>): (r: Parsed<Text>)
    ensures r.Got? ==> |r.rest| < |bytes|
    decreases |bytes|
  {
    if bytes == [] then Fail
    else if bytes[0] == END_OBJECT then Got(End, bytes[1..])
    else if bytes[0] == QUOTATION_MARK then
      match ReadChars(bytes[1..])
      case Fail => Fail
      case Got(chars, afterString) =>
        match ReadText(afterString)
        case Fail => Fail
        case Got(t, rest) => Got(Str(chars, t), rest)
    else if bytes[0] == BEGIN_OBJECT then
      match ReadText(bytes[1..])
      case Fail => Fail
      case Got(inner, afterObject) =>
        match ReadText(afterObject)
        case Fail => Fail
        case Got(t, rest) => Got(Object(inner, t), rest)
    else
      match ReadText(bytes[1..])
      case Fail => Fail
      case Got(t, rest) => Got(Plain(bytes[0], t), rest)
  }

  function ReadValue(bytes: seq<byte>): (r: Parsed<Value>)
    ensures r.Got? ==> |r.rest| < |bytes|
  {
    if NULL <= bytes then Got(NullValue, bytes[|NULL|..])
    else if bytes == [] || bytes[0] != BEGIN_OBJECT then Fail
    else
      match ReadText(bytes[1..])
      case Fail => Fail
      case Got(t, rest) => Got(ObjectValue(t), rest)
  }

  function ReadEntry(bytes: seq<byte>): (r: Parsed<Entry>)
    ensures r.Got? ==> |r.rest| < |bytes|
  {
    var (before, s) := ReadSpaces(bytes);
    match ReadValue(s)
    case Fail => Fail
    case Got(v, afterValue) =>
      var (after, rest) := ReadSpaces(afterValue);
      Got(Entry(before, v, after), rest)
  }

  /** One or more entries, with a comma between each and the next. */
  function ReadEntries(bytes: seq<byte>): (r: Parsed<seq<Entry>>)
    ensures r.Got? ==> r.value != []
    decreases |bytes|
  {
    match ReadEntry(bytes)
    case Fail => Fail
    case Got(e, rest) =>
      if rest == [] || rest[0] != VALUE_SEPARATOR then Got([e], rest)
      else
        match ReadEntries(rest[1..])
        case Fail => Fail
        case Got(es, end) => Got([e] + es, end)
  }

  /** What follows the opening bracket: entries, or white space alone. */
  function ReadElements(bytes: seq<byte>): Parsed<(seq<byte>, seq<Entry>)> {
    var (blank, s) := ReadSpaces(bytes);
    if s != [] && s[0] == END_ARRAY then Got((blank, []), s)
    else
      match ReadEntries(bytes)
      case Fail => Fail
      case Got(es, rest) => Got(([], es), rest)
  }

  function ReadDocument(bytes: seq<byte>): Option<Document> {
    var (lead, s) := ReadSpaces(bytes);
    if NULL <= s then
      if Spaces(s[|NULL|..]) then Some(NullDocument(lead, s[|NULL|..])) else None
    else if s == [] || s[0] != BEGIN_ARRAY then None
    else
      match ReadElements(s[1..])
      case Fail => None
      case Got((blank, entries), rest) =>
        if rest != [] && rest[0] == END_ARRAY && Spaces(rest[1..])
        then Some(ArrayDocument(lead, blank, entries, rest[1..]))
        else None
  }

  // ---- what is read is what was printed ---------------------------------------------

  lemma {:induction false} CharsPrinted(bytes: seq<byte>)
    ensures match ReadChars(bytes)
            case Fail => true
            case Got(cs, rest) =>
              && (forall k :: 0 <= k < |cs| ==> ValidChar(cs[k]))
              && PrintChars(cs) + [QUOTATION_MARK] + rest == bytes
    decreases |bytes|
  {
    if bytes != [] && bytes[0] != QUOTATION_MARK {
      var n := if bytes[0] == ESCAPE then 2 else 1;
      if n <= |bytes| {
        CharsPrinted(bytes[n..]);
        var r := ReadChars(bytes);
        if r.Got? {
          var tail := ReadChars(bytes[n..]).value;
          assert r.value[1..] == tail;
          assert bytes == bytes[..n] + bytes[n..];
          assert PrintChars(r.value) == bytes[..n] + PrintChars(tail);
          Prefixed(bytes[..n], PrintChars(tail), r.rest);
        }
      }
    } else if bytes != [] {
      assert [] + [QUOTATION_MARK] + bytes[1..] == bytes;
    }
  }

  lemma {:induction false} Prefixed(a: seq<byte>, b: seq<byte>, rest: seq<byte>)
    ensures a + (b + [QUOTATION_MARK] + rest) == a + b + [QUOTATION_MARK] + rest
  {
  }

  lemma {:induction false} TextPrinted(bytes: seq<byte>)
    ensures match ReadText(bytes)
            case Fail => true
            case Got(t, rest) => ValidText(t) && PrintText(t) + [END_OBJECT] + rest == bytes
    decreases |bytes|
  {
    var r := ReadText(bytes);
    if r.Got? {
      if bytes[0] == END_OBJECT {
        assert [] + [END_OBJECT] + bytes[1..] == bytes;
      } else if bytes[0] == QUOTATION_MARK {
        CharsPrinted(bytes[1..]);
        var s := ReadChars(bytes[1..]);
        TextPrinted(s.rest);
        StringThenText(bytes, s.value, s.rest, r.value.rest, r.rest);
      } else if bytes[0] == BEGIN_OBJECT {
        TextPrinted(bytes[1..]);
        var s := ReadText(bytes[1..]);
        TextPrinted(s.rest);
        ObjectThenText(bytes, s.value, s.rest, r.value.rest, r.rest);
      } else {
        TextPrinted(bytes[1..]);
        var tail := PrintText(r.value.rest) + [END_OBJECT] + r.rest;
        assert bytes == [bytes[0]] + tail;
        assert PrintText(r.value) + [END_OBJECT] + r.rest == [bytes[0]] + tail;
      }
    }
  }

  lemma {:induction false} StringThenText(bytes: seq<byte>, chars: seq<StringChar>, afterString: seq<byte>, t: Text, rest: seq<byte>)
    requires bytes != [] && bytes[0] == QUOTATION_MARK
    requires PrintChars(chars) + [QUOTATION_MARK] + afterString == bytes[1..]
    requires PrintText(t) + [END_OBJECT] + rest == afterString
    ensures PrintText(Str(chars, t)) + [END_OBJECT] + rest == bytes
  {
    var a, b := PrintChars(chars), PrintText(t);
    assert [QUOTATION_MARK] + (a + [QUOTATION_MARK] + (b + [END_OBJECT] + rest)) ==
           [QUOTATION_MARK] + a + [QUOTATION_MARK] + b + [END_OBJECT] + rest;
    assert bytes == [bytes[0]] + bytes[1..];
  }

  lemma {:induction false} ObjectThenText(bytes: seq<byte>, inner: Text, afterObject: seq<byte>, t: Text, rest: seq<byte>)
    requires bytes != [] && bytes[0] == BEGIN_OBJECT
    requires PrintText(inner) + [END_OBJECT] + afterObject == bytes[1..]
    requires PrintText(t) + [END_OBJECT] + rest == afterObject
    ensures PrintText(Object(inner, t)) + [END_OBJECT] + rest == bytes
  {
    var a, b := PrintText(inner), PrintText(t);
    assert [BEGIN_OBJECT] + (a + [END_OBJECT] + (b + [END_OBJECT] + rest)) ==
           [BEGIN_OBJECT] + a + [END_OBJECT] + b + [END_OBJECT] + rest;
    assert bytes == [bytes[0]] + bytes[1..];
  }

  lemma {:induction false} ValuePrinted(bytes: seq<byte>)
    ensures match ReadValue(bytes)
            case Fail => true
            case Got(v, rest) => ValidValue(v) && PrintValue(v) + rest == bytes
  {
    hide ReadText;
    hide PrintText;
    var v := ReadValue(bytes);
    if v.Got? && v.value.NullValue? {
      assert bytes == NULL + v.rest;
    } else if v.Got? {
      TextPrinted(bytes[1..]);
      var body := PrintText(v.value.text);
      assert bytes == [bytes[0]] + (body + [END_OBJECT] + v.rest);
      assert [BEGIN_OBJECT] + (body + [END_OBJECT] + v.rest) == [BEGIN_OBJECT] + body + [END_OBJECT] + v.rest;
    }
  }

  lemma {:induction false} Regroup(a: seq<byte>, b: seq<byte>, c: seq<byte>, d: seq<byte>)
    ensures a + (b + (c + d)) == a + b + c + d
  {
  }

  lemma {:induction false} EntryPrinted(bytes: seq<byte>)
    ensures match ReadEntry(bytes)
            case Fail => true
            case Got(e, rest) =>
              && ValidEntry(e) && e.before + PrintValue(e.value) + e.after + rest == bytes
              && (rest != [] ==> !IsWhitespace(rest[0]))
  {
    hide ReadValue;
    hide PrintValue;
    hide ReadSpaces;
    hide Spaces;
    var (before, s) := ReadSpaces(bytes);
    ValuePrinted(s);
    var v := ReadValue(s);
    if v.Got? {
      var (after, rest) := ReadSpaces(v.rest);
      Regroup(before, PrintValue(v.value), after, rest);
    }
  }

  lemma {:induction false} EntriesPrinted(bytes: seq<byte>)
    ensures match ReadEntries(bytes)
            case Fail => true
            case Got(es, rest) => ValidEntries(es) && PrintEntries(es) + rest == bytes
    decreases |bytes|
  {
    hide ReadEntry;
    hide PrintValue;
    EntryPrinted(bytes);
    var r := ReadEntries(bytes);
    if r.Got? {
      var first := ReadEntry(bytes);
      var e, text := first.value, first.value.before + PrintValue(first.value.value) + first.value.after;
      if |r.value| == 1 && !(first.rest != [] && first.rest[0] == VALUE_SEPARATOR) {
        assert text + [] + first.rest == bytes;
      } else {
        EntriesPrinted(first.rest[1..]);
        var more := ReadEntries(first.rest[1..]);
        assert r.value[1..] == more.value;
        assert first.rest == [VALUE_SEPARATOR] + first.rest[1..];
        assert text + ([VALUE_SEPARATOR] + (PrintEntries(more.value) + more.rest)) ==
               text + ([VALUE_SEPARATOR] + PrintEntries(more.value)) + more.rest;
      }
    }
  }

  /** A document that is read prints to the bytes it was read from. */
  lemma {:induction false} DocumentPrinted(bytes: seq<byte>)
    requires ReadDocument(bytes).Some?
    ensures var d := ReadDocument(bytes).value; ValidDocument(d) && PrintDocument(d) == bytes
  {
    hide ReadElements;
    hide PrintEntries;
    hide ReadSpaces;
    hide Spaces;
    hide ValidEntries;
    var d := ReadDocument(bytes).value;
    var (lead, s) := ReadSpaces(bytes);
    if d.NullDocument? {
      assert s == NULL + s[|NULL|..];
      assert lead + (NULL + s[|NULL|..]) == lead + NULL + s[|NULL|..];
    } else {
      ElementsPrinted(s[1..]);
      var inside := d.blank + PrintEntries(d.entries);
      var r := ReadElements(s[1..]);
      assert r.rest == [END_ARRAY] + d.trail && s == [BEGIN_ARRAY] + s[1..];
      assert lead + ([BEGIN_ARRAY] + (inside + ([END_ARRAY] + d.trail))) ==
             lead + [BEGIN_ARRAY] + inside + [END_ARRAY] + d.trail;
    }
  }

  lemma {:induction false} ElementsPrinted(bytes: seq<byte>)
    ensures match ReadElements(bytes)
            case Fail => true
            case Got((blank, es), rest) =>
              && Spaces(blank) && ValidEntries(es) && (es != [] ==> blank == [])
              && blank + PrintEntries(es) + rest == bytes
  {
    hide ReadEntries;
    hide ReadSpaces;
    EntriesPrinted(bytes);
    NoEntries();
    var (blank, s) := ReadSpaces(bytes);
    hide PrintEntries;
    var r := ReadElements(bytes);
    if r.Got? {
      if r.value.1 == [] {
        assert blank + [] + s == bytes;
      } else {
        assert [] + PrintEntries(r.value.1) == PrintEntries(r.value.1);
      }
    }
  }

  lemma {:induction false} NoEntries()
    ensures PrintEntries([]) == []
  {
  }

  // ---- what was printed is read ------------------------------------------------------

  lemma {:induction false} SpacesRead(spaces: seq<byte>, rest: seq<byte>)
    requires Spaces(spaces) && (rest != [] ==> !IsWhitespace(rest[0]))
    ensures ReadSpaces(spaces + rest) == (spaces, rest)
    decreases |spaces|
  {
    if spaces == [] {
      assert spaces + rest == rest;
    } else {
      assert (spaces + rest)[1..] == spaces[1..] + rest;
      SpacesRead(spaces[1..], rest);
      assert [spaces[0]] + spaces[1..] == spaces;
    }
  }

  lemma {:induction false} CharsRead(cs: seq<StringChar>, rest: seq<byte>)
    requires forall k :: 0 <= k < |cs| ==> ValidChar(cs[k])
    ensures ReadChars(PrintChars(cs) + [QUOTATION_MARK] + rest) == Got(cs, rest)
    decreases |cs|
  {
    var bytes := PrintChars(cs) + [QUOTATION_MARK] + rest;
    if cs == [] {
      assert bytes == [QUOTATION_MARK] + rest;
    } else {
      CharsRead(cs[1..], rest);
      var tail := PrintChars(cs[1..]) + [QUOTATION_MARK] + rest;
      var n := if cs[0].Raw? then 1 else 2;
      assert bytes[n..] == tail;
      assert [cs[0]] + cs[1..] == cs;
    }
  }

  lemma {:induction false} TextRead(t: Text, rest: seq<byte>)
    requires ValidText(t)
    ensures ReadText(PrintText(t) + [END_OBJECT] + rest) == Got(t, rest)
    decreases t
  {
    hide PrintChars;
    hide ReadChars;
    var bytes := PrintText(t) + [END_OBJECT] + rest;
    match t
    case End => assert bytes == [END_OBJECT] + rest;
    case Plain(c, u) =>
      TextRead(u, rest);
      assert bytes[1..] == PrintText(u) + [END_OBJECT] + rest;
    case Str(chars, u) =>
      var tail := PrintText(u) + [END_OBJECT] + rest;
      CharsRead(chars, tail);
      TextRead(u, rest);
      assert bytes[1..] == PrintChars(chars) + [QUOTATION_MARK] + tail;
    case Object(inner, u) =>
      var tail := PrintText(u) + [END_OBJECT] + rest;
      TextRead(inner, tail);
      TextRead(u, rest);
      ObjectTail(PrintText(inner), PrintText(u), rest);
      assert bytes == PrintObject(inner) + PrintText(u) + [END_OBJECT] + rest;
  }

  lemma {:induction false} ObjectTail(a: seq<byte>, b: seq<byte>, rest: seq<byte>)
    ensures ([BEGIN_OBJECT] + a + [END_OBJECT] + b + [END_OBJECT] + rest)[1..] ==
            a + [END_OBJECT] + (b + [END_OBJECT] + rest)
  {
  }

  lemma {:induction false} ValueRead(v: Value, rest: seq<byte>)
    requires ValidValue(v)
    ensures ReadValue(PrintValue(v) + rest) == Got(v, rest)
    ensures PrintValue(v) != [] && !IsWhitespace(PrintValue(v)[0]) && PrintValue(v)[0] != END_ARRAY
  {
    hide ReadText;
    hide PrintText;
    var bytes := PrintValue(v) + rest;
    if v.NullValue? {
      assert bytes[..|NULL|] == NULL && bytes[|NULL|..] == rest;
    } else {
      TextRead(v.text, rest);
      assert bytes[0] == BEGIN_OBJECT && bytes[1..] == PrintText(v.text) + [END_OBJECT] + rest;
    }
  }

  lemma {:induction false} EntryRead(e: Entry, rest: seq<byte>)
    requires ValidEntry(e) && (rest != [] ==> !IsWhitespace(rest[0]))
    ensures ReadEntry(e.before + PrintValue(e.value) + e.after + rest) == Got(e, rest)
  {
    hide ReadValue;
    hide PrintValue;
    hide ReadSpaces;
    var tail := e.after + rest;
    ValueRead(e.value, tail);
    SpacesRead(e.before, PrintValue(e.value) + tail);
    assert e.before + PrintValue(e.value) + e.after + rest == e.before + (PrintValue(e.value) + tail);
    SpacesRead(e.after, rest);
  }

  lemma {:induction false} EntriesRead(es: seq<Entry>, rest: seq<byte>)
    requires es != [] && ValidEntries(es) && rest != [] && !IsWhitespace(rest[0]) && rest[0] != VALUE_SEPARATOR
    ensures ReadEntries(PrintEntries(es) + rest) == Got(es, rest)
    decreases |es|
  {
    hide ReadEntry;
    hide PrintValue;
    var e, text := es[0], es[0].before + PrintValue(es[0].value) + es[0].after;
    if |es| == 1 {
      EntryRead(e, rest);
      assert PrintEntries(es) + rest == text + rest;
      assert [e] == es;
    } else {
      var tail := [VALUE_SEPARATOR] + (PrintEntries(es[1..]) + rest);
      EntryRead(e, tail);
      EntriesRead(es[1..], rest);
      assert PrintEntries(es) + rest == text + tail && tail[1..] == PrintEntries(es[1..]) + rest;
      assert [e] + es[1..] == es;
    }
  }

  lemma {:induction false} FirstIsNotClosing(es: seq<Entry>, rest: seq<byte>)
    requires es != [] && ValidEntries(es)
    ensures var s := ReadSpaces(PrintEntries(es) + rest).1; s != [] && s[0] != END_ARRAY
  {
    hide PrintValue;
    hide ReadSpaces;
    hide PrintEntries;
    hide ReadValue;
    var e := es[0];
    var tail := FirstEntry(es, rest);
    ValueRead(e.value, tail);
    SpacesRead(e.before, PrintValue(e.value) + tail);
  }

  lemma {:induction false} FirstEntry(es: seq<Entry>, rest: seq<byte>) returns (tail: seq<byte>)
    requires es != []
    ensures PrintEntries(es) + rest == es[0].before + (PrintValue(es[0].value) + tail)
  {
    var before, text, after := es[0].before, PrintValue(es[0].value), es[0].after;
    var more := if |es| == 1 then [] else [VALUE_SEPARATOR] + PrintEntries(es[1..]);
    tail := after + more + rest;
    assert PrintEntries(es) == before + text + after + more;
    hide PrintEntries;
    hide PrintValue;
    assert before + text + after + more + rest == before + (text + tail);
  }

  /** And a printed document is read. */
  lemma {:induction false} DocumentRead(d: Document)
    requires ValidDocument(d)
    ensures ReadDocument(PrintDocument(d)) == Some(d)
  {
    hide ReadEntries;
    hide PrintEntries;
    hide ReadSpaces;
    var bytes := PrintDocument(d);
    if d.NullDocument? {
      var s := NULL + d.trail;
      assert bytes == d.lead + s;
      SpacesRead(d.lead, s);
      assert s[..|NULL|] == NULL && s[|NULL|..] == d.trail;
    } else {
      var rest := [END_ARRAY] + d.trail;
      var inside := d.blank + PrintEntries(d.entries);
      var s := [BEGIN_ARRAY] + (inside + rest);
      assert bytes == d.lead + s && s[1..] == inside + rest && rest[1..] == d.trail;
      SpacesRead(d.lead, s);
      NoEntries();
      if d.entries == [] {
        assert inside == d.blank;
        SpacesRead(d.blank, rest);
      } else {
        assert inside == PrintEntries(d.entries);
        FirstIsNotClosing(d.entries, rest);
        EntriesRead(d.entries, rest);
      }
    }
  }

  /** The reader accepts exactly the documents of the grammar, each in one way. */
  lemma {:induction false} ReadExactly(bytes: seq<byte>, d: Document)
    ensures ReadDocument(bytes) == Some(d) <==> ValidDocument(d) && PrintDocument(d) == bytes
  {
    hide ReadDocument;
    hide ValidDocument;
    if ReadDocument(bytes).Some? {
      DocumentPrinted(bytes);
    }
    if ValidDocument(d) {
      DocumentRead(d);
    }
  }
}
