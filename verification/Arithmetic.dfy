/** Smaller and larger, division with a variable divisor, and modular sums. */
module Arithmetic {
  function Min(a: nat, b: nat): nat { if a < b then a else b }

  function Max(a: nat, b: nat): nat { if a < b then b else a }

  lemma {:induction false} MulLe(a: int, b: int, p: nat)
    requires a <= b
    ensures a * p <= b * p
  {
  }

  lemma {:induction false} Distribute(a: int, b: int, p: int)
    ensures (a + b) * p == a * p + b * p
  {
  }

  /** Quotient and remainder are unique. */
  lemma {:induction false} DivModUnique(x: int, q: int, r: int, word: nat)
    requires 0 <= r < word && x == q * word + r
    ensures x / word == q && x % word == r
  {
    var k := x / word;
    assert x == k * word + x % word;
    if k > q {
      MulLe(q + 1, k, word);
      Distribute(q, 1, word);
    } else if k < q {
      MulLe(k + 1, q, word);
      Distribute(k, 1, word);
    }
  }

  lemma {:induction false} AddMod(a: int, b: int, word: nat)
    requires word > 0
    ensures (a % word + b % word) % word == (a + b) % word
  {
    var qa, qb := a / word, b / word;
    var r := a % word + b % word;
    var q := r / word;
    Distribute(qa, qb, word);
    Distribute(qa + qb, q, word);
    DivModUnique(a + b, qa + qb + q, r % word, word);
  }
}
