/** The digit loops of the name coder, in 64-bit arithmetic. */
module Base40 {
  import opened Wrappers
  import opened Arithmetic
  import opened Bytes
  import opened Base40Spec

  lemma {:induction false} ValueNext(name: seq<byte>, i: nat)
    requires i < |name| && Spelled(name[..i + 1])
    ensures Spelled(name[..i]) && Value(name[..i + 1]) == Value(name[..i]) + Digit(name[i]) * Pow40(i)
    decreases i
  {
    hide Digit;
    Spell(name, i);
    var a, b := name[..i + 1], name[..i];
    if i > 0 {
      assert a[1..] == name[1..][..i] && b[1..] == name[1..][..i - 1];
      SpellRest(a);
      ValueNext(name[1..], i - 1);
      Scale(Digit(name[i]), Pow40(i - 1));
    } else {
      assert a[1..] == [];
    }
  }

  lemma {:induction false} Scale(d: int, p: int)
    ensures 40 * (d * p) == d * (40 * p)
  {
  }

  lemma {:induction false} SpellRest(name: seq<byte>)
    requires Spelled(name) && name != []
    ensures Spelled(name[1..])
  {
  }

  lemma {:induction false} Spell(name: seq<byte>, i: nat)
    requires i < |name|
    ensures Spelled(name[..i + 1]) <==> Spelled(name[..i]) && Digit(name[i]) > 0
  {
    hide Digit;
    assert name[..i + 1] == name[..i] + [name[i]];
    if Spelled(name[..i + 1]) {
      assert forall k :: 0 <= k < i ==> name[..i][k] == name[..i + 1][k];
      assert name[..i + 1][i] == name[i];
    }
  }

  lemma {:induction false} NotSpelled(name: seq<byte>, i: nat)
    requires i < |name| && Digit(name[i]) <= 0
    ensures !Spelled(name)
  {
  }

  /** The linear search of the alphabet. */
  method FindDigit(c: byte) returns (pos: int)
    ensures pos == Digit(c)
  {
    pos := -1;
    for j := 0 to |Alphabet()|
      invariant pos == -1 && Digit(c) == Find(Alphabet(), c, j)
    {
      if Alphabet()[j] == c {
        return j;
      }
    }
  }

  /** Adding one digit, or padding, to the value so far stays below 40^12 and so below 2^64. */
  lemma {:induction false} EncodeStep(name: seq<byte>, i: nat, idx: nat)
    requires i < MAX_NAME_LEN && |name| <= MAX_NAME_LEN
    requires if i < |name| then idx == Digit(name[i]) > 0 else idx == 0
    requires Spelled(name[..Min(i, |name|)])
    ensures Spelled(name[..Min(i + 1, |name|)])
    ensures (Value(name[..Min(i, |name|)]) + idx * Pow40(i)) % WORD64 == Value(name[..Min(i + 1, |name|)])
  {
    hide Digit;
    if i < |name| {
      Spell(name, i);
      ValueNext(name, i);
    }
    EncodeFits(name[..Min(i + 1, |name|)]);
  }

  lemma {:induction false} EncodeFits(name: seq<byte>)
    requires |name| <= MAX_NAME_LEN && Spelled(name)
    ensures Value(name) % WORD64 == Value(name)
  {
    hide Digit;
    TwelveDigits();
    PowMonotone(|name|, MAX_NAME_LEN);
  }

  /** Twelve rounds of digit times scale, in 64-bit arithmetic; it fails exactly on an invalid name. */
  method EncodeName(name: seq<byte>) returns (r: Result<nat>)
    ensures r == if ValidName(name) then Ok(Value(name)) else Err
  {
    hide Digit;
    hide Spelled;
    hide Value;
    hide Pow40;
    if |name| == 0 || |name| > MAX_NAME_LEN {
      return Err;
    }
    var encoded, scale := 0, 1;
    assert name[..0] == [];
    NothingSpelled();
    for i := 0 to MAX_NAME_LEN
      invariant Spelled(name[..Min(i, |name|)]) && encoded == Value(name[..Min(i, |name|)])
      invariant scale == Pow40(Min(i, MAX_NAME_LEN - 1))
    {
      var idx := 0;
      if i < |name| {
        var pos := FindDigit(name[i]);
        if pos <= 0 {
          NotSpelled(name, i);
          return Err;
        }
        idx := pos;
      }
      EncodeStep(name, i, idx);
      encoded := (encoded + idx * scale) % WORD64;
      if i < MAX_NAME_LEN - 1 {
        EncodeScale(i);
        scale := scale * 40 % WORD64;
      }
    }
    assert name[..|name|] == name;
    r := Ok(encoded);
  }

  lemma {:induction false} EncodeScale(i: nat)
    requires i < MAX_NAME_LEN - 1
    ensures Pow40(i) * 40 % WORD64 == Pow40(i + 1)
  {
    TwelveDigits();
    PowMonotone(i + 1, MAX_NAME_LEN - 1);
  }

  lemma {:induction false} NothingSpelled()
    ensures Spelled([]) && Value([]) == 0 && Pow40(0) == 1
  {
  }

  method DecodeName(word: nat) returns (name: seq<byte>)
    ensures name == Decode(word)
  {
    name := [];
    var encoded := word;
    while encoded > 0
      invariant Decode(word) == name + Decode(encoded)
    {
      var r := encoded % 40;
      ghost var was := encoded;
      encoded := encoded / 40;
      if r == 0 {
        break;
      }
      assert name + Decode(was) == name + [Alphabet()[r]] + Decode(encoded);
      name := name + [Alphabet()[r]];
    }
    assert name + [] == name;
  }
}
