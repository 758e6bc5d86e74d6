/** Internal file names packed twelve to a 64-bit word (internal/ctfs/base40.go:15-82). */
module Base40Spec {
  import opened Wrappers
  import opened Arithmetic
  import opened Bytes

  const MAX_NAME_LEN: nat := 12

  /** Digit 0 is padding (NUL); then '0'..'9', 'a'..'z', '.', '/' and '-'. */
  function Symbol(d: nat): byte
    requires d < 40
  {
    if d == 0 then 0
    else if d <= 10 then 47 + d
    else if d <= 36 then 86 + d
    else if d == 37 then 46
    else if d == 38 then 47
    else 45
  }

  function Alphabet(): (s: seq<byte>)
    ensures |s| == 40 && forall d :: 0 <= d < 40 ==> s[d] == Symbol(d)
  {
    seq(40, d requires 0 <= d < 40 => Symbol(d))
  }

  /** The first position of `c` in `s` from `from` on; -1 when there is none. */
  function Find(s: seq<byte>, c: byte, from: nat): (j: int)
    requires from <= |s|
    ensures -1 <= j < |s| && (j >= 0 ==> from <= j && s[j] == c)
    ensures j < 0 ==> forall k :: from <= k < |s| ==> s[k] != c
    decreases |s| - from
  {
    if from == |s| then -1 else if s[from] == c then from else Find(s, c, from + 1)
  }

  function Digit(c: byte): (d: int)
    ensures -1 <= d < 40 && (d >= 0 ==> Symbol(d) == c)
  {
    Find(Alphabet(), c, 0)
  }

  predicate Spelled(name: seq<byte>) { forall i :: 0 <= i < |name| ==> Digit(name[i]) > 0 }

  predicate ValidName(name: seq<byte>) { 0 < |name| <= MAX_NAME_LEN && Spelled(name) }

  function Pow40(n: nat): (p: nat)
    ensures p > 0
  {
    if n == 0 then 1 else 40 * Pow40(n - 1)
  }

  /** Little-endian base 40. */
  function Value(name: seq<byte>): (v: nat)
    requires Spelled(name)
    ensures v < Pow40(|name|)
  {
    if name == [] then 0 else Digit(name[0]) + 40 * Value(name[1..])
  }

  /** The characters of the digits of `word`, up to the first padding digit. */
  function Decode(word: nat): seq<byte> {
    if word == 0 || word % 40 == 0 then [] else [Symbol(word % 40)] + Decode(word / 40)
  }

  /** The check an entry's name word goes through: it decodes to a name that encodes back to it. */
  predicate NameWordOk(word: nat) {
    var name := Decode(word);
    ValidName(name) && Value(name) == word
  }

  /** No digit of `word` is padding. */
  predicate NoZeroDigit(word: nat) {
    word == 0 || (word % 40 != 0 && NoZeroDigit(word / 40))
  }

  lemma {:induction false} DigitOfSymbol(d: nat)
    requires d < 40
    ensures Digit(Symbol(d)) == d
  {
    assert Alphabet()[d] == Symbol(d);
    assert Digit(Symbol(d)) >= 0;
  }

  lemma {:induction false} TwelveDigits()
    ensures Pow40(MAX_NAME_LEN) <= WORD64 < Pow40(MAX_NAME_LEN + 1)
  {
    assert Pow40(2) == 1600 && Pow40(4) == 1600 * Pow40(2) && Pow40(4) == 2560000;
    assert Pow40(6) == 1600 * Pow40(4) && Pow40(8) == 1600 * Pow40(6);
    assert Pow40(10) == 1600 * Pow40(8) && Pow40(12) == 1600 * Pow40(10);
    assert Pow40(13) == 40 * Pow40(12);
  }

  /** A name survives encoding and decoding. */
  lemma {:induction false} DecodeUndoesEncode(name: seq<byte>)
    requires Spelled(name)
    ensures Decode(Value(name)) == name
    decreases |name|
  {
    hide Digit;
    if name != [] {
      FirstDigit(name);
      assert Digit(name[0]) > 0;
      DecodeUndoesEncode(name[1..]);
      assert [name[0]] + name[1..] == name;
    }
  }

  /** The other direction: a word without padding digits is its decoded name's encoding. */
  lemma {:induction false} EncodeUndoesDecode(word: nat)
    ensures Spelled(Decode(word))
    ensures Value(Decode(word)) == word <==> NoZeroDigit(word)
    ensures Value(Decode(word)) <= word
    decreases word
  {
    if word != 0 && word % 40 != 0 {
      EncodeUndoesDecode(word / 40);
      DigitOfSymbol(word % 40);
      var name := Decode(word);
      assert name[1..] == Decode(word / 40);
      assert forall i :: 1 <= i < |name| ==> name[i] == name[1..][i - 1];
    }
  }

  /** An encoding fits the word, and two names never share one. */
  lemma {:induction false} EncodingIsInjective(a: seq<byte>, b: seq<byte>)
    requires ValidName(a) && ValidName(b)
    ensures Value(a) < WORD64
    ensures Value(a) == Value(b) <==> a == b
  {
    TwelveDigits();
    PowMonotone(|a|, MAX_NAME_LEN);
    DecodeUndoesEncode(a);
    DecodeUndoesEncode(b);
  }

  lemma {:induction false} PowMonotone(a: nat, b: nat)
    requires a <= b
    ensures Pow40(a) <= Pow40(b)
    decreases b - a
  {
    if a < b { PowMonotone(a + 1, b); }
  }

  /** The length of a decoded name is bounded by the size of the word, both ways. */
  lemma {:induction false} DecodedLength(word: nat, n: nat)
    requires NoZeroDigit(word)
    ensures |Decode(word)| <= n <==> word < Pow40(n)
    decreases n
  {
    if word != 0 && n > 0 {
      DecodedLength(word / 40, n - 1);
    }
  }

  /** A name word is accepted exactly when it is the encoding of some valid name, that is, when it
      is positive, below 40^12 and has no padding digit. */
  lemma {:induction false} AcceptedExactlyIfEncoding(word: nat)
    ensures NameWordOk(word) <==> exists name :: ValidName(name) && Value(name) == word
    ensures NameWordOk(word) <==> 0 < word < Pow40(12) && NoZeroDigit(word)
  {
    if NameWordOk(word) {
      assert ValidName(Decode(word)) && Value(Decode(word)) == word;
    }
    forall name | ValidName(name) && Value(name) == word
      ensures NameWordOk(word)
    {
      DecodeUndoesEncode(name);
    }
    EncodeUndoesDecode(word);
    if NoZeroDigit(word) {
      DecodedLength(word, MAX_NAME_LEN);
    }
  }

  /** The alphabet, spelled out. */
  const CHARACTERS: string := "0123456789abcdefghijklmnopqrstuvwxyz./-"

  /** The digit of a character is its place in the alphabet, counted from 1. */
  lemma {:induction false} DigitIsPlace(k: nat)
    requires k < |CHARACTERS|
    ensures |CHARACTERS| == 39 && (CHARACTERS[k] as int) < 256 && Digit(CHARACTERS[k] as int) == k + 1
  {
    assert Symbol(k + 1) == CHARACTERS[k] as int;
    DigitOfSymbol(k + 1);
  }

  /** Other characters have none. */
  lemma {:induction false} OnlyThoseCharacters(c: byte)
    ensures Digit(c) > 0 <==> exists k :: 0 <= k < |CHARACTERS| && CHARACTERS[k] as int == c
  {
    if Digit(c) > 0 {
      var k := Digit(c) - 1;
      DigitIsPlace(k);
      assert Symbol(k + 1) == CHARACTERS[k] as int;
    } else {
      forall k | 0 <= k < |CHARACTERS| ensures CHARACTERS[k] as int != c { DigitIsPlace(k); }
    }
  }

  /** Character `i` of a name is the base-40 digit of weight 40^i. */
  lemma {:induction false} DigitAt(name: seq<byte>, i: nat)
    requires Spelled(name) && i < |name|
    ensures Value(name) / Pow40(i) % 40 == Digit(name[i])
    decreases i
  {
    hide Value;
    hide Digit;
    FirstDigit(name);
    if i > 0 {
      assert Pow40(i) == 40 * Pow40(i - 1);
      hide Pow40;
      DigitAt(name[1..], i - 1);
      DivDiv(Value(name), Pow40(i - 1));
      assert name[1..][i - 1] == name[i];
    }
  }

  lemma {:induction false} FirstDigit(name: seq<byte>)
    requires Spelled(name) && name != []
    ensures Value(name) % 40 == Digit(name[0]) && Value(name) / 40 == Value(name[1..])
    ensures Pow40(0) == 1
  {
    hide Digit;
    assert Digit(name[0]) > 0;
    DivModUnique(Value(name), Value(name[1..]), Digit(name[0]), 40);
  }

  lemma {:induction false} DivDiv(n: nat, p: nat)
    requires p > 0
    ensures n / (40 * p) == n / 40 / p
  {
    var q, r := n / 40 / p, n / 40 % p;
    assert n == 40 * (q * p + r) + n % 40;
    assert 40 * (q * p + r) == q * (40 * p) + 40 * r;
    DivModUnique(n, q, 40 * r + n % 40, 40 * p);
  }
}
