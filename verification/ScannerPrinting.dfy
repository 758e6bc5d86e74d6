/** The scanner inverts array printing: a printed array of brace-balanced objects is split
    into exactly those objects. */
module ScannerPrinting {
  import opened Wrappers
  import opened JsonTokens
  import opened ScannerSpec
  import opened ScannerProofs

  /** A character of a string literal: itself, or behind a backslash. */
  datatype StringChar = Raw(c: byte) | Escaped(c: byte)

  /** What stands between the braces of an object, as far as braces and strings go. */
  datatype Text =
    | End
    | Plain(c: byte, rest: Text)
    | Str(chars: seq<StringChar>, rest: Text)
    | Object(inner: Text, rest: Text)

  predicate ValidChar(c: StringChar) { c.Raw? ==> c.c != QUOTATION_MARK && c.c != ESCAPE }

  predicate ValidText(t: Text) {
    match t
    case End => true
    case Plain(c, rest) => c != QUOTATION_MARK && c != BEGIN_OBJECT && c != END_OBJECT && ValidText(rest)
    case Str(chars, rest) => (forall k :: 0 <= k < |chars| ==> ValidChar(chars[k])) && ValidText(rest)
    case Object(inner, rest) => ValidText(inner) && ValidText(rest)
  }

  function PrintChars(chars: seq<StringChar>): seq<byte> {
    if chars == [] then []
    else (if chars[0].Raw? then [chars[0].c] else [ESCAPE, chars[0].c]) + PrintChars(chars[1..])
  }

  function PrintText(t: Text): seq<byte>
    decreases t, 0
  {
    match t
    case End => []
    case Plain(c, rest) => [c] + PrintText(rest)
    case Str(chars, rest) => [QUOTATION_MARK] + PrintChars(chars) + [QUOTATION_MARK] + PrintText(rest)
    case Object(inner, rest) => PrintObject(inner) + PrintText(rest)
  }

  function PrintObject(t: Text): seq<byte>
    decreases t, 1
  {
    [BEGIN_OBJECT] + PrintText(t) + [END_OBJECT]
  }

  /** An element and the separators before it. */
  datatype Item = Item(separators: seq<byte>, element: Text)

  function PrintItems(items: seq<Item>): seq<byte> {
    if items == [] then []
    else items[0].separators + PrintObject(items[0].element) + PrintItems(items[1..])
  }

  function PrintArray(lead: seq<byte>, items: seq<Item>, trail: seq<byte>): seq<byte> {
    lead + [BEGIN_ARRAY] + PrintItems(items) + trail + [END_ARRAY]
  }

  // ---- the automaton follows the grammar ----------------------------------

  /** Consuming `a` takes phase `p` to phase `q` without completing an element. */
  ghost predicate Follows(p: Phase, a: seq<byte>, q: Phase) { ScanBytes(p, a) == Scan([], q, []) }

  lemma {:induction false} FollowsChain(p: Phase, a: seq<byte>, q: Phase, b: seq<byte>, r: Phase)
    requires Follows(p, a, q) && Follows(q, b, r) && !q.Closed? && !q.Bad?
    ensures Follows(p, a + b, r)
  {
    RunAppend(p, a, b);
  }

  lemma {:induction false} FollowsOne(p: Phase, c: byte)
    requires !p.Closed? && !p.Bad? && !Completes(p, c)
    ensures Follows(p, [c], Step(p, c))
  {
    assert [c][1..] == [];
  }

  lemma {:induction false} FollowsNone(p: Phase)
    ensures Follows(p, [], p)
  {}

  /** One character of a string literal. */
  lemma {:induction false} InsideChar(p: Phase, c: StringChar)
    requires p.Inside? && p.inString && !p.escaped && ValidChar(c)
    ensures var text := if c.Raw? then [c.c] else [ESCAPE, c.c];
            Follows(p, text, p.(partial := p.partial + text))
  {
    hide Follows;
    if c.Raw? {
      FollowsOne(p, c.c);
    } else {
      var q := Step(p, ESCAPE);
      FollowsOne(p, ESCAPE);
      FollowsOne(q, c.c);
      assert p.partial + [ESCAPE] + [c.c] == p.partial + [ESCAPE, c.c];
      FollowsChain(p, [ESCAPE], q, [c.c], Step(q, c.c));
      assert [ESCAPE] + [c.c] == [ESCAPE, c.c];
    }
  }

  lemma {:induction false} InsideString(p: Phase, chars: seq<StringChar>)
    requires p.Inside? && p.inString && !p.escaped
    requires forall k :: 0 <= k < |chars| ==> ValidChar(chars[k])
    ensures Follows(p, PrintChars(chars), p.(partial := p.partial + PrintChars(chars)))
    decreases |chars|
  {
    hide Follows;
    if chars == [] {
      assert p.partial + [] == p.partial;
      FollowsNone(p);
    } else {
      var c := chars[0];
      var first := if c.Raw? then [c.c] else [ESCAPE, c.c];
      var q := p.(partial := p.partial + first);
      InsideChar(p, c);
      InsideString(q, chars[1..]);
      assert q.partial + PrintChars(chars[1..]) == p.partial + PrintChars(chars);
      FollowsChain(p, first, q, PrintChars(chars[1..]), p.(partial := p.partial + PrintChars(chars)));
    }
  }

  lemma {:induction false} StringLiteral(p: Phase, chars: seq<StringChar>)
    requires p.Inside? && !p.inString && !p.escaped
    requires forall k :: 0 <= k < |chars| ==> ValidChar(chars[k])
    ensures var text := [QUOTATION_MARK] + PrintChars(chars) + [QUOTATION_MARK];
            Follows(p, text, p.(partial := p.partial + text))
  {
    hide Follows;
    var q := Step(p, QUOTATION_MARK);
    var body := PrintChars(chars);
    FollowsOne(p, QUOTATION_MARK);
    InsideString(q, chars);
    var r := q.(partial := q.partial + body);
    FollowsChain(p, [QUOTATION_MARK], q, body, r);
    FollowsOne(r, QUOTATION_MARK);
    assert r.partial + [QUOTATION_MARK] == p.partial + ([QUOTATION_MARK] + body + [QUOTATION_MARK]);
    FollowsChain(p, [QUOTATION_MARK] + body, r, [QUOTATION_MARK], Step(r, QUOTATION_MARK));
  }

  /** Inside an object any balanced text is swallowed whole. */
  lemma {:induction false} BalancedText(p: Phase, t: Text)
    requires p.Inside? && !p.inString && !p.escaped && p.depth >= 1 && ValidText(t)
    ensures Follows(p, PrintText(t), p.(partial := p.partial + PrintText(t)))
    decreases t, 0
  {
    if t.End? {
      assert p.partial + [] == p.partial;
    } else {
      var first := match t
                   case Plain(c, _) => [c]
                   case Str(chars, _) => [QUOTATION_MARK] + PrintChars(chars) + [QUOTATION_MARK]
                   case Object(inner, _) => PrintObject(inner);
      var q := p.(partial := p.partial + first);
      match t {
        case Plain(c, _) => FollowsOne(p, c);
        case Str(chars, _) => StringLiteral(p, chars);
        case Object(inner, _) => NestedObject(p, inner);
      }
      BalancedText(q, t.rest);
      assert PrintText(t) == first + PrintText(t.rest);
      assert q.partial + PrintText(t.rest) == p.partial + PrintText(t);
      FollowsChain(p, first, q, PrintText(t.rest), p.(partial := p.partial + PrintText(t)));
    }
  }

  /** The braces of a nested object. */
  lemma {:induction false} Braces(p: Phase, body: seq<byte>)
    requires p.Inside? && !p.inString && !p.escaped && p.depth >= 1
    ensures var q := p.(partial := p.partial + [BEGIN_OBJECT], depth := p.depth + 1);
            var r := q.(partial := q.partial + body);
            && Follows(p, [BEGIN_OBJECT], q)
            && Follows(r, [END_OBJECT], p.(partial := p.partial + ([BEGIN_OBJECT] + body + [END_OBJECT])))
  {
    hide Follows;
    var q := p.(partial := p.partial + [BEGIN_OBJECT], depth := p.depth + 1);
    var r := q.(partial := q.partial + body);
    FollowsOne(p, BEGIN_OBJECT);
    FollowsOne(r, END_OBJECT);
    assert r.partial + [END_OBJECT] == p.partial + ([BEGIN_OBJECT] + body + [END_OBJECT]);
  }

  lemma {:induction false} NestedObject(p: Phase, inner: Text)
    requires p.Inside? && !p.inString && !p.escaped && p.depth >= 1 && ValidText(inner)
    ensures Follows(p, PrintObject(inner), p.(partial := p.partial + PrintObject(inner)))
    decreases inner, 1
  {
    hide Follows;
    hide PrintText;
    hide ValidText;
    var body := PrintText(inner);
    var q := p.(partial := p.partial + [BEGIN_OBJECT], depth := p.depth + 1);
    var r := q.(partial := q.partial + body);
    Braces(p, body);
    BalancedText(q, inner);
    FollowsChain(p, [BEGIN_OBJECT], q, body, r);
    FollowsChain(p, [BEGIN_OBJECT] + body, r, [END_OBJECT], p.(partial := p.partial + PrintObject(inner)));
  }

  /** Between elements, a printed object is one element. */
  lemma {:induction false} OneElement(t: Text)
    requires ValidText(t)
    ensures ScanBytes(Between, PrintObject(t)) == Scan([PrintObject(t)], Between, [])
  {
    var q, body := Step(Between, BEGIN_OBJECT), PrintText(t);
    FollowsOne(Between, BEGIN_OBJECT);
    BalancedText(q, t);
    var r := q.(partial := q.partial + body);
    FollowsChain(Between, [BEGIN_OBJECT], q, body, r);
    assert r.partial + [END_OBJECT] == PrintObject(t);
    assert [END_OBJECT][1..] == [];
    assert ScanBytes(r, [END_OBJECT]) == Scan([PrintObject(t)], Between, []);
    RunAppend(Between, [BEGIN_OBJECT] + body, [END_OBJECT]);
  }

  lemma {:induction false} SkipSeparators(bytes: seq<byte>)
    requires AllSeparators(bytes)
    ensures Follows(Between, bytes, Between)
    decreases |bytes|
  {
    if bytes != [] {
      FollowsOne(Between, bytes[0]);
      SkipSeparators(bytes[1..]);
      FollowsChain(Between, [bytes[0]], Between, bytes[1..], Between);
      assert [bytes[0]] + bytes[1..] == bytes;
    }
  }

  lemma {:induction false} SkipSpaces(bytes: seq<byte>)
    requires forall k :: 0 <= k < |bytes| ==> IsWhitespace(bytes[k])
    ensures Follows(Before, bytes, Before)
    decreases |bytes|
  {
    if bytes != [] {
      FollowsOne(Before, bytes[0]);
      SkipSpaces(bytes[1..]);
      FollowsChain(Before, [bytes[0]], Before, bytes[1..], Before);
      assert [bytes[0]] + bytes[1..] == bytes;
    }
  }

  function Printed(items: seq<Item>): seq<seq<byte>> {
    if items == [] then [] else [PrintObject(items[0].element)] + Printed(items[1..])
  }

  predicate ValidItem(item: Item) { AllSeparators(item.separators) && ValidText(item.element) }

  lemma {:induction false} ItemsRun(items: seq<Item>)
    requires forall k :: 0 <= k < |items| ==> ValidItem(items[k])
    ensures ScanBytes(Between, PrintItems(items)) == Scan(Printed(items), Between, [])
    decreases |items|
  {
    if items != [] {
      var item, text := items[0], PrintObject(items[0].element);
      SkipSeparators(item.separators);
      OneElement(item.element);
      ItemsRun(items[1..]);
      RunAppend(Between, item.separators, text);
      RunAppend(Between, item.separators + text, PrintItems(items[1..]));
      assert PrintItems(items) == item.separators + text + PrintItems(items[1..]);
    }
  }

  /** A printed array scans to exactly the printed elements and ends closed; anything after
      it is left unread. */
  lemma {:induction false} ScanUndoesPrinting(lead: seq<byte>, items: seq<Item>, trail: seq<byte>, after: seq<byte>)
    requires forall k :: 0 <= k < |lead| ==> IsWhitespace(lead[k])
    requires forall k :: 0 <= k < |items| ==> ValidItem(items[k])
    requires AllSeparators(trail)
    ensures ScanBytes(Before, PrintArray(lead, items, trail) + after) == Scan(Printed(items), Closed, after)
  {
    SkipSpaces(lead);
    FollowsOne(Before, BEGIN_ARRAY);
    FollowsChain(Before, lead, Before, [BEGIN_ARRAY], Between);
    ItemsRun(items);
    RunAppend(Before, lead + [BEGIN_ARRAY], PrintItems(items));
    SkipSeparators(trail);
    RunAppend(Before, lead + [BEGIN_ARRAY] + PrintItems(items), trail);
    assert [END_ARRAY][1..] == [];
    assert ScanBytes(Between, [END_ARRAY]) == Scan([], Closed, []);
    RunAppend(Before, lead + [BEGIN_ARRAY] + PrintItems(items) + trail, [END_ARRAY]);
    RunAppend(Before, PrintArray(lead, items, trail), after);
  }
}
