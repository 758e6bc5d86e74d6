/** What the scanner accepts (internal/boundarylog/stream.go:140-278): exactly the arrays whose elements
    are brace-balanced objects, with any white space and commas around them. */
module ScannerExact {
  import opened Wrappers
  import opened JsonTokens
  import opened ScannerSpec
  import opened ScannerProofs
  import opened ScannerPrinting
  import opened JsonArray

  /** The bytes leave the scanner in the middle of an element. */
  ghost predicate StaysInside(p: Phase, bytes: seq<byte>) {
    ScanBytes(p, bytes).phase.Inside? && ScanBytes(p, bytes).elems == []
  }

  lemma {:induction false} StaysInsideAfter(p: Phase, first: seq<byte>, q: Phase, rest: seq<byte>)
    requires Follows(p, first, q) && q.Inside? && StaysInside(q, rest)
    ensures StaysInside(p, first + rest)
  {
    RunAppend(p, first, rest);
  }

  /** A string that is not closed. */
  lemma {:induction false} OpenString(p: Phase, bytes: seq<byte>)
    requires p.Inside? && p.inString && !p.escaped && ReadChars(bytes).Fail?
    ensures StaysInside(p, bytes)
    decreases |bytes|
  {
    hide Follows;
    if bytes != [] {
      var c := bytes[0];
      if c == ESCAPE && |bytes| == 1 {
        FollowsOne(p, c);
        NothingScanned(Step(p, c));
        StaysInsideAfter(p, [c], Step(p, c), []);
        assert [c] + [] == bytes;
      } else {
        var n := if c == ESCAPE then 2 else 1;
        var ch := if c == ESCAPE then Escaped(bytes[1]) else Raw(c);
        InsideChar(p, ch);
        assert bytes[..n] == if ch.Raw? then [ch.c] else [ESCAPE, ch.c];
        OpenString(p.(partial := p.partial + bytes[..n]), bytes[n..]);
        StaysInsideAfter(p, bytes[..n], p.(partial := p.partial + bytes[..n]), bytes[n..]);
        assert bytes[..n] + bytes[n..] == bytes;
      }
    }
  }

  /** An object that is not closed. */
  lemma {:induction false} OpenObject(p: Phase, bytes: seq<byte>)
    requires p.Inside? && !p.inString && !p.escaped && p.depth >= 1 && ReadText(bytes).Fail?
    ensures StaysInside(p, bytes)
    decreases |bytes|
  {
    hide Follows;
    hide StaysInside;
    if bytes == [] {
      NothingScanned(p);
    } else {
      var c := bytes[0];
      assert bytes == [c] + bytes[1..];
      if c == QUOTATION_MARK {
        OpenAfterString(p, bytes);
      } else if c == BEGIN_OBJECT {
        OpenAfterObject(p, bytes);
      } else {
        FollowsOne(p, c);
        OpenObject(Step(p, c), bytes[1..]);
        StaysInsideAfter(p, [c], Step(p, c), bytes[1..]);
      }
    }
  }

  lemma {:induction false} NothingScanned(p: Phase)
    requires p.Inside?
    ensures StaysInside(p, [])
  {}

  lemma {:induction false} OpenAfterObject(p: Phase, bytes: seq<byte>)
    requires p.Inside? && !p.inString && !p.escaped && p.depth >= 1 && ReadText(bytes).Fail?
    requires bytes != [] && bytes[0] == BEGIN_OBJECT
    ensures StaysInside(p, bytes)
    decreases |bytes|, 0
  {
    hide Follows;
    hide StaysInside;
    assert bytes == [BEGIN_OBJECT] + bytes[1..];
    var inner := ReadText(bytes[1..]);
    if inner.Fail? {
      FollowsOne(p, BEGIN_OBJECT);
      OpenObject(Step(p, BEGIN_OBJECT), bytes[1..]);
      StaysInsideAfter(p, [BEGIN_OBJECT], Step(p, BEGIN_OBJECT), bytes[1..]);
    } else {
      TextPrinted(bytes[1..]);
      var text := PrintObject(inner.value);
      assert bytes == text + inner.rest;
      NestedObject(p, inner.value);
      OpenObject(p.(partial := p.partial + text), inner.rest);
      StaysInsideAfter(p, text, p.(partial := p.partial + text), inner.rest);
    }
  }

  lemma {:induction false} OpenAfterString(p: Phase, bytes: seq<byte>)
    requires p.Inside? && !p.inString && !p.escaped && p.depth >= 1 && ReadText(bytes).Fail?
    requires bytes != [] && bytes[0] == QUOTATION_MARK
    ensures StaysInside(p, bytes)
    decreases |bytes|, 0
  {
    hide Follows;
    hide StaysInside;
    assert bytes == [QUOTATION_MARK] + bytes[1..];
    var chars := ReadChars(bytes[1..]);
    if chars.Fail? {
      FollowsOne(p, QUOTATION_MARK);
      OpenString(Step(p, QUOTATION_MARK), bytes[1..]);
      StaysInsideAfter(p, [QUOTATION_MARK], Step(p, QUOTATION_MARK), bytes[1..]);
    } else {
      CharsPrinted(bytes[1..]);
      var text := [QUOTATION_MARK] + PrintChars(chars.value) + [QUOTATION_MARK];
      assert bytes == text + chars.rest;
      StringLiteral(p, chars.value);
      OpenObject(p.(partial := p.partial + text), chars.rest);
      StaysInsideAfter(p, text, p.(partial := p.partial + text), chars.rest);
    }
  }

  predicate ValidItems(items: seq<Item>) { forall k :: 0 <= k < |items| ==> ValidItem(items[k]) }

  /** The items and trailing separators of a scan that reaches the closing bracket. */
  lemma {:induction false} ItemsOf(bytes: seq<byte>) returns (items: seq<Item>, trail: seq<byte>)
    requires ScanBytes(Between, bytes).phase.Closed?
    ensures ValidItems(items) && AllSeparators(trail)
    ensures var r := ScanBytes(Between, bytes);
            bytes == PrintItems(items) + trail + [END_ARRAY] + r.rest && r.elems == Printed(items)
    decreases |bytes|
  {
    var c, rest := bytes[0], bytes[1..];
    assert bytes == [c] + rest;
    if c == END_ARRAY {
      items, trail := [], [];
      assert [] + [] + [END_ARRAY] + rest == bytes;
    } else if c == BEGIN_OBJECT {
      items, trail := ItemsFromObject(bytes);
    } else if AllSeparators([c]) {
      items, trail := ItemsOf(rest);
      items, trail := OneMoreSeparator(c, items, trail, ScanBytes(Between, rest).rest);
    }
  }

  lemma {:induction false} OneMoreSeparator(c: byte, items: seq<Item>, trail: seq<byte>, rest: seq<byte>)
    returns (items': seq<Item>, trail': seq<byte>)
    requires ValidItems(items) && AllSeparators(trail) && AllSeparators([c])
    ensures ValidItems(items') && AllSeparators(trail') && Printed(items') == Printed(items)
    ensures [c] + (PrintItems(items) + trail + [END_ARRAY] + rest) == PrintItems(items') + trail' + [END_ARRAY] + rest
  {
    if items == [] {
      items', trail' := [], [c] + trail;
    } else {
      var first := items[0];
      var wider := Item([c] + first.separators, first.element);
      items', trail' := [wider] + items[1..], trail;
      assert items'[1..] == items[1..];
      var text, more := PrintObject(first.element), PrintItems(items[1..]);
      assert [c] + first.separators + text + more == [c] + (first.separators + text + more);
      assert PrintItems(items') == [c] + PrintItems(items);
      assert forall k :: 1 <= k < |items| ==> items'[k] == items[k];
    }
  }

  lemma {:induction false} ItemsFromObject(bytes: seq<byte>) returns (items: seq<Item>, trail: seq<byte>)
    requires ScanBytes(Between, bytes).phase.Closed? && bytes != [] && bytes[0] == BEGIN_OBJECT
    ensures ValidItems(items) && AllSeparators(trail)
    ensures var r := ScanBytes(Between, bytes);
            bytes == PrintItems(items) + trail + [END_ARRAY] + r.rest && r.elems == Printed(items)
    decreases |bytes|, 0
  {
    hide ScanBytes;
    hide ReadText;
    hide PrintItems;
    hide Printed;
    hide PrintObject;
    hide ValidItems;
    var element, rest := ScannedObject(bytes);
    var more;
    more, trail := ItemsOf(rest);
    items := [Item([], element)] + more;
    OneMoreItem(element, more, trail, ScanBytes(Between, rest).rest);
  }

  lemma {:induction false} OneMoreItem(element: Text, items: seq<Item>, trail: seq<byte>, rest: seq<byte>)
    requires ValidText(element) && ValidItems(items)
    ensures var more := [Item([], element)] + items;
            && ValidItems(more) && Printed(more) == [PrintObject(element)] + Printed(items)
            && PrintObject(element) + (PrintItems(items) + trail + [END_ARRAY] + rest) ==
               PrintItems(more) + trail + [END_ARRAY] + rest
  {
    hide PrintObject;
    var more, text := [Item([], element)] + items, PrintObject(element);
    assert more[1..] == items;
    assert [] + text + PrintItems(items) == text + PrintItems(items);
  }

  /** A scan that reaches the closing bracket closes the object it starts with. */
  lemma {:induction false} ScannedObject(bytes: seq<byte>) returns (element: Text, rest: seq<byte>)
    requires ScanBytes(Between, bytes).phase.Closed? && bytes != [] && bytes[0] == BEGIN_OBJECT
    ensures ValidText(element) && |rest| < |bytes| && bytes == PrintObject(element) + rest
    ensures var r := ScanBytes(Between, rest);
            ScanBytes(Between, bytes) == r.(elems := [PrintObject(element)] + r.elems)
  {
    hide ReadText;
    assert bytes == [BEGIN_OBJECT] + bytes[1..];
    FollowsOne(Between, BEGIN_OBJECT);
    RunAppend(Between, [BEGIN_OBJECT], bytes[1..]);
    if ReadText(bytes[1..]).Fail? {
      OpenObject(Step(Between, BEGIN_OBJECT), bytes[1..]);
    }
    hide ScanBytes;
    hide PrintText;
    TextPrinted(bytes[1..]);
    element, rest := ReadText(bytes[1..]).value, ReadText(bytes[1..]).rest;
    assert bytes == PrintObject(element) + rest;
    OneElement(element);
    RunAppend(Between, PrintObject(element), rest);
  }

  // ---- the theorem ------------------------------------------------------------------------------

  /** The bytes are an array of these elements, and `rest`. */
  ghost predicate IsArray(bytes: seq<byte>, elems: seq<seq<byte>>, rest: seq<byte>) {
    exists lead: seq<byte>, items: seq<Item>, trail: seq<byte> ::
      && PrintArray(lead, items, trail) + rest == bytes && Printed(items) == elems
      && Spaces(lead) && ValidItems(items) && AllSeparators(trail)
  }

  lemma {:induction false} LeadOf(bytes: seq<byte>) returns (lead: seq<byte>, inside: seq<byte>)
    requires ScanBytes(Before, bytes).phase.Closed?
    ensures Spaces(lead) && bytes == lead + [BEGIN_ARRAY] + inside && ScanBytes(Before, bytes) == ScanBytes(Between, inside)
    decreases |bytes|
  {
    var c, rest := bytes[0], bytes[1..];
    assert bytes == [c] + rest;
    if c == BEGIN_ARRAY {
      lead, inside := [], rest;
      assert [] + [BEGIN_ARRAY] + rest == bytes;
    } else if IsWhitespace(c) {
      lead, inside := LeadOf(rest);
      assert [c] + (lead + [BEGIN_ARRAY] + inside) == [c] + lead + [BEGIN_ARRAY] + inside;
      lead := [c] + lead;
    }
  }

  /** The scanner reaches a closing bracket with these elements if and only if the bytes are an array of
      them. */
  lemma {:induction false} ScannedExactly(bytes: seq<byte>, elems: seq<seq<byte>>, rest: seq<byte>)
    ensures ScanBytes(Before, bytes) == Scan(elems, Closed, rest) <==> IsArray(bytes, elems, rest)
  {
    hide ScanBytes;
    hide PrintItems;
    hide Printed;
    if ScanBytes(Before, bytes) == Scan(elems, Closed, rest) {
      var lead, inside := LeadOf(bytes);
      var items, trail := ItemsOf(inside);
      var body := PrintItems(items);
      assert lead + [BEGIN_ARRAY] + (body + trail + [END_ARRAY] + rest) == lead + [BEGIN_ARRAY] + body + trail + [END_ARRAY] + rest;
      assert PrintArray(lead, items, trail) + rest == bytes;
    }
    if IsArray(bytes, elems, rest) {
      var lead: seq<byte>, items: seq<Item>, trail: seq<byte> :|
        && PrintArray(lead, items, trail) + rest == bytes && Printed(items) == elems
        && Spaces(lead) && ValidItems(items) && AllSeparators(trail);
      ScanUndoesPrinting(lead, items, trail, rest);
    }
  }

  // ---- what is not refused --------------------------------------------------------------------

  function Braces(n: nat): seq<byte> { if n == 0 then [] else [END_OBJECT] + Braces(n - 1) }

  /** Bytes that close whatever is open. */
  function Closing(p: Phase): seq<byte> {
    match p
    case Bad => []
    case Before => [BEGIN_ARRAY, END_ARRAY]
    case Between => [END_ARRAY]
    case Closed => []
    case Inside(_, depth, inString, escaped) =>
      if !inString then Braces(if depth == 0 then 1 else depth) + [END_ARRAY]
      else (if escaped then [ESCAPE] else []) + [QUOTATION_MARK] + Braces(if depth == 0 then 1 else depth) + [END_ARRAY]
  }

  lemma {:induction false} BracketCloses()
    ensures ScanBytes(Between, [END_ARRAY]) == Scan([], Closed, [])
  {
    assert [END_ARRAY][1..] == [];
  }

  lemma {:induction false} BracesClose(p: Phase, n: nat)
    requires p.Inside? && !p.inString && n == if p.depth == 0 then 1 else p.depth
    ensures ScanBytes(p, Braces(n) + [END_ARRAY]).phase.Closed?
    decreases n
  {
    var bytes := Braces(n) + [END_ARRAY];
    assert bytes[0] == END_OBJECT && bytes[1..] == Braces(n - 1) + [END_ARRAY];
    if n > 1 {
      BracesClose(Step(p, END_OBJECT), n - 1);
    } else {
      assert Braces(0) + [END_ARRAY] == [END_ARRAY];
      BracketCloses();
    }
  }

  lemma {:induction false} ClosingCloses(p: Phase)
    requires !p.Bad?
    ensures ScanBytes(p, Closing(p)).phase.Closed?
  {
    BracketCloses();
    match p
    case Before => assert Closing(p)[1..] == [END_ARRAY];
    case Between =>
    case Closed =>
    case Inside(_, depth, inString, escaped) =>
      var n := if depth == 0 then 1 else depth;
      if !inString { BracesClose(p, n); } else { StringCloses(p, n); }
  }

  lemma {:induction false} StringCloses(p: Phase, n: nat)
    requires p.Inside? && p.inString && n == if p.depth == 0 then 1 else p.depth
    ensures ScanBytes(p, (if p.escaped then [ESCAPE] else []) + [QUOTATION_MARK] + Braces(n) + [END_ARRAY]).phase.Closed?
  {
    hide ScanBytes;
    hide Follows;
    var tail, escape := Braces(n) + [END_ARRAY], if p.escaped then [ESCAPE] else [];
    var q := if p.escaped then Step(p, ESCAPE) else p;
    var r := Step(q, QUOTATION_MARK);
    FollowsNone(p);
    FollowsOne(p, ESCAPE);
    FollowsOne(q, QUOTATION_MARK);
    FollowsChain(p, escape, q, [QUOTATION_MARK], r);
    BracesClose(r, n);
    ClosesAfter(p, escape + [QUOTATION_MARK], r, tail);
    assert escape + [QUOTATION_MARK] + tail == escape + [QUOTATION_MARK] + Braces(n) + [END_ARRAY];
  }

  lemma {:induction false} ClosesAfter(p: Phase, first: seq<byte>, q: Phase, rest: seq<byte>)
    requires Follows(p, first, q) && q.Inside? && ScanBytes(q, rest).phase.Closed?
    ensures ScanBytes(p, first + rest).phase.Closed?
  {
    RunAppend(p, first, rest);
  }

  /** The scanner refuses exactly the bytes that no continuation makes an array. */
  lemma {:induction false} RefusedExactly(bytes: seq<byte>)
    ensures ScanBytes(Before, bytes).phase.Bad? <==>
            forall more: seq<byte>, elems: seq<seq<byte>>, rest: seq<byte> :: !IsArray(bytes + more, elems, rest)
  {
    hide IsArray;
    hide Closing;
    var r := ScanBytes(Before, bytes);
    hide ScanBytes;
    if r.phase.Bad? {
      forall more: seq<byte>, elems: seq<seq<byte>>, rest: seq<byte> ensures !IsArray(bytes + more, elems, rest) {
        RunAppend(Before, bytes, more);
        ScannedExactly(bytes + more, elems, rest);
      }
    } else {
      var more := Closing(r.phase);
      ClosingCloses(r.phase);
      RunAppend(Before, bytes, more);
      var all := ScanBytes(Before, bytes + more);
      ScannedExactly(bytes + more, all.elems, all.rest);
    }
  }
}
