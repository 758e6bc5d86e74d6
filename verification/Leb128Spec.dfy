/** LEB128 integers (internal/leb128/leb128.go:41-285; section 5.2.2 of the WebAssembly Core
    Specification): the value of a byte string, the shortest string of a value, and what each decoder
    accepts. */
module Leb128Spec {
  import opened Wrappers
  import opened Arithmetic
  import opened Bytes

  const WORD33: nat := 0x2_0000_0000

  function Pow128(n: nat): (p: nat)
    ensures p >= 1
  {
    if n == 0 then 1 else 128 * Pow128(n - 1)
  }

  /** The number of bytes up to the first without a continuation bit. */
  function Terminator(s: seq<byte>): (n: Option<nat>)
    ensures n.Some? ==> 1 <= n.value <= |s| && s[n.value - 1] < 128
    ensures n.Some? ==> forall i :: 0 <= i < n.value - 1 ==> s[i] >= 128
    ensures n.None? ==> forall i :: 0 <= i < |s| ==> s[i] >= 128
  {
    if s == [] then None
    else if s[0] < 128 then Some(1)
    else
      var n := Terminator(s[1..]);
      assert forall i :: 1 <= i < |s| ==> s[i] == s[1..][i - 1];
      if n.None? then None else Some(n.value + 1)
  }

  function UnsignedValue(s: seq<byte>): (v: nat)
    ensures v < Pow128(|s|)
  {
    if s == [] then 0 else s[0] % 128 + 128 * UnsignedValue(s[1..])
  }

  /** Two's complement: bit 6 of the last byte is the sign. */
  function SignedValue(s: seq<byte>): int
    requires s != []
  {
    UnsignedValue(s) - if s[|s| - 1] % 128 >= 64 then Pow128(|s|) else 0
  }

  function Unsigned(v: nat): (s: seq<byte>)
    ensures |s| >= 1
  {
    if v < 128 then [v] else [v % 128 + 128] + Unsigned(v / 128)
  }

  function Signed(v: int): (s: seq<byte>)
    ensures |s| >= 1
    decreases if v < 0 then -v else v
  {
    if -64 <= v < 64 then [v % 128] else [v % 128 + 128] + Signed(v / 128)
  }

  // ---- what the encoders produce -------------------------------------------------

  lemma {:induction false} TerminatorStep(b: byte, s: seq<byte>, rest: seq<byte>)
    requires b >= 128 && Terminator(s + rest) == Some(|s|)
    ensures Terminator([b] + s + rest) == Some(1 + |s|)
  {
    assert ([b] + s + rest)[1..] == s + rest;
  }

  lemma {:induction false} UnsignedStep(b: byte, s: seq<byte>, rest: seq<byte>)
    requires b >= 128 && Terminator(s + rest) == Some(|s|)
    ensures Terminator([b] + s + rest) == Some(1 + |s|)
    ensures UnsignedValue([b] + s) == b % 128 + 128 * UnsignedValue(s)
  {
    hide Terminator;
    TerminatorStep(b, s, rest);
    assert ([b] + s)[1..] == s;
  }

  /** The shortest unsigned string of `v` ends itself and has value `v`. */
  lemma {:induction false} UnsignedIsExact(v: nat, rest: seq<byte>)
    ensures Terminator(Unsigned(v) + rest) == Some(|Unsigned(v)|)
    ensures UnsignedValue(Unsigned(v)) == v
    decreases v
  {
    hide Terminator;
    hide UnsignedValue;
    hide Pow128;
    if v >= 128 {
      UnsignedIsExact(v / 128, rest);
      LowDigit(v);
      UnsignedStep(v % 128 + 128, Unsigned(v / 128), rest);
    } else {
      ShortUnsigned(v, rest);
    }
  }

  lemma {:induction false} ShortUnsigned(v: nat, rest: seq<byte>)
    requires v < 128
    ensures Terminator([v] + rest) == Some(1) && UnsignedValue([v]) == v
  {
    assert ([v] + rest)[0] == v && [v][1..] == [];
  }

  lemma {:induction false} UnsignedLength(v: nat, n: nat)
    requires n >= 1
    ensures |Unsigned(v)| <= n <==> v < Pow128(n)
    decreases n
  {
    if v >= 128 && n > 1 {
      UnsignedLength(v / 128, n - 1);
    } else if v >= 128 {
      assert Pow128(1) == 128 * Pow128(0);
    } else {
      assert Pow128(n) == 128 * Pow128(n - 1);
    }
  }

  lemma {:induction false} SignedStep(b: byte, s: seq<byte>, rest: seq<byte>)
    requires b >= 128 && s != [] && Terminator(s + rest) == Some(|s|)
    ensures Terminator([b] + s + rest) == Some(1 + |s|)
    ensures SignedValue([b] + s) == b % 128 + 128 * SignedValue(s)
  {
    hide Terminator;
    TerminatorStep(b, s, rest);
    assert ([b] + s)[1..] == s;
  }

  lemma {:induction false} SignedIsExact(v: int, rest: seq<byte>)
    ensures Terminator(Signed(v) + rest) == Some(|Signed(v)|)
    ensures SignedValue(Signed(v)) == v
    decreases if v < 0 then -v else v
  {
    hide Terminator;
    hide SignedValue;
    if -64 <= v < 64 {
      ShortSigned(v, rest);
    } else {
      SignedIsExact(v / 128, rest);
      LowDigit(v);
      SignedStep(v % 128 + 128, Signed(v / 128), rest);
    }
  }

  lemma {:induction false} LowDigit(v: int)
    ensures (v % 128 + 128) % 128 == v % 128 && v == v % 128 + 128 * (v / 128)
  {
  }

  lemma {:induction false} ShortSigned(v: int, rest: seq<byte>)
    requires -64 <= v < 64
    ensures Terminator([v % 128] + rest) == Some(1) && SignedValue([v % 128]) == v
  {
    var b := v % 128;
    assert ([b] + rest)[0] == b && [b][1..] == [];
    assert UnsignedValue([b]) == b && Pow128(1) == 128 * Pow128(0);
  }

  lemma {:induction false} SignedLength(v: int, n: nat)
    requires n >= 1
    ensures |Signed(v)| <= n <==> 0 <= 2 * v + Pow128(n) && 2 * v < Pow128(n)
    decreases n
  {
    if -64 <= v < 64 {
      assert Pow128(n) == 128 * Pow128(n - 1);
    } else if n > 1 {
      SignedLength(v / 128, n - 1);
      assert Pow128(n) == 128 * Pow128(n - 1) && Pow128(n - 1) == 128 * Pow128(n - 2);
      SignedScale(v, 64 * Pow128(n - 2));
    } else {
      assert Pow128(1) == 128 * Pow128(0);
    }
  }

  lemma {:induction false} SignedScale(v: int, half: int)
    ensures -half <= v / 128 < half <==> -(128 * half) <= v < 128 * half
  {
    var q := v / 128;
    assert 128 * q <= v < 128 * q + 128;
  }

  // ---- what the decoders accept ------------------------------------------------------

  datatype Decoded = Rejected | Decoded(value: int, length: nat)

  /** The terminated strings of at most `maxLen` bytes whose value is below `limit`. */
  function DecodedUnsigned(s: seq<byte>, maxLen: nat, limit: nat): Decoded {
    var n := Terminator(s);
    if n.None? || n.value > maxLen then Rejected
    else
      var v := UnsignedValue(s[..n.value]);
      if v >= limit then Rejected else Decoded(v, n.value)
  }

  /** `x` modulo `word`, as a two's complement number. */
  function Wrap(x: int, word: nat): int
    requires word > 0
  {
    var r := x % word;
    if 2 * r >= word then r - word else r
  }

  predicate InRange(v: int, word: nat) { 0 <= 2 * v + word && 2 * v < word }

  /** In the last byte a word has room for, the bits from the sign bit up to bit 5 agree; bit 6 is
      not looked at. */
  predicate SignBitsAgree(b: byte, room: nat) { b % 64 < room || b % 64 + room >= 64 }

  /** The decoders' reading of the first `n` bytes. */
  function SignedPrefix(s: seq<byte>, n: nat, maxLen: nat, word: nat, room: nat): Decoded
    requires 1 <= n <= |s| && word > 0
  {
    if n == maxLen && !SignBitsAgree(s[n - 1], room) then Rejected
    else Decoded(Wrap(SignedValue(s[..n]), word), n)
  }

  function DecodedSigned(s: seq<byte>, maxLen: nat, word: nat, room: nat): Decoded
    requires word > 0
  {
    var n := Terminator(s);
    if n.None? || n.value > maxLen then Rejected else SignedPrefix(s, n.value, maxLen, word, room)
  }

  /** The 33-bit decoder stops after five bytes whether or not the fifth one ends the integer. */
  function DecodedInt33(s: seq<byte>): Decoded {
    var n := Terminator(s);
    if n.Some? && n.value <= 5 then SignedPrefix(s, n.value, 5, WORD33, 16)
    else if |s| >= 5 then SignedPrefix(s, 5, 5, WORD33, 16)
    else Rejected
  }

  // ---- the values decoded ---------------------------------------------------------------

  lemma {:induction false} LastByte(s: seq<byte>)
    requires s != []
    ensures UnsignedValue(s) ==
            UnsignedValue(s[..|s| - 1]) + s[|s| - 1] % 128 * Pow128(|s| - 1)
    decreases |s|
  {
    if |s| > 1 {
      LastByte(s[1..]);
      assert s[1..][..|s| - 2] == s[..|s| - 1][1..];
      Rescale(s[|s| - 1] % 128, Pow128(|s| - 2));
    } else {
      assert s[1..] == [] && s[..0] == [];
    }
  }

  lemma {:induction false} Rescale(d: int, p: int)
    ensures 128 * (d * p) == d * (128 * p)
  {
  }

  /** A string shorter than the longest decodes to a value in range; one of full length does exactly
      when bits from the sign bit up to bit 6 of its last byte agree. */
  lemma {:induction false} RangeByLastByte(s: seq<byte>, maxLen: nat, word: nat, room: nat)
    requires 1 <= |s| <= maxLen && 1 <= room <= 32 && 2 * room * Pow128(maxLen - 1) == word
    ensures InRange(SignedValue(s), word) <==>
              |s| < maxLen || s[|s| - 1] % 128 < room || s[|s| - 1] % 128 + room >= 128
  {
    hide UnsignedValue;
    hide Pow128;
    var p, d := Pow128(|s| - 1), s[|s| - 1] % 128;
    LastByte(s);
    PowStep(|s|);
    var low := UnsignedValue(s[..|s| - 1]);
    if |s| == maxLen {
      ScaleDigit(d, room, p, low);
    } else {
      PowMonotone(|s|, maxLen - 1);
      ScaleDigit(d, 64, p, low);
      assert 2 * Pow128(maxLen - 1) <= word by { ScaleRoom(room, Pow128(maxLen - 1)); }
    }
  }

  lemma {:induction false} PowStep(n: nat)
    requires n >= 1
    ensures Pow128(n) == 128 * Pow128(n - 1)
  {
  }

  lemma {:induction false} ScaleRoom(room: nat, p: nat)
    requires room >= 1
    ensures 2 * p <= 2 * room * p
  {
  }

  lemma {:induction false} ScaleDigit(d: nat, room: nat, p: nat, low: nat)
    requires d < 128 && low < p && 1 <= room <= 64
    ensures 2 * (low + d * p) < 2 * room * p <==> d < room
    ensures 0 <= 2 * (low + d * p - 128 * p) + 2 * room * p <==> d + room >= 128
  {
    var dp, rp := d * p, room * p;
    if d < room {
      MulLe(d + 1, room, p);
      assert (d + 1) * p == dp + p;
    } else {
      MulLe(room, d, p);
    }
    assert (d + room) * p == dp + rp;
    if d + room >= 128 {
      MulLe(128, d + room, p);
    } else {
      MulLe(d + room + 1, 128, p);
      assert (d + room + 1) * p == dp + rp + p;
    }
    assert 2 * room * p == 2 * rp;
  }

  lemma {:induction false} PowMonotone(a: nat, b: nat)
    requires a <= b
    ensures Pow128(a) <= Pow128(b)
    decreases b - a
  {
    if a < b { PowMonotone(a + 1, b); }
  }

  /** `room` is the weight of the sign bit in the last byte a word of `maxLen` bytes has. */
  predicate Fits(maxLen: nat, word: nat, room: nat) {
    maxLen >= 1 && 1 <= room <= 32 && 2 * room * Pow128(maxLen - 1) == word
  }

  lemma {:induction false} Geometry()
    ensures Fits(5, WORD32, 8) && Fits(5, WORD33, 16) && Fits(10, WORD64, 1)
    ensures 16 * Pow128(4) == WORD32 && 2 * Pow128(9) == WORD64
  {
    assert Pow128(2) == 16384 && Pow128(4) == 16384 * 16384;
    assert Pow128(6) == 16384 * Pow128(4) && Pow128(8) == 16384 * Pow128(6) && Pow128(9) == 128 * Pow128(8);
  }

  /** Every unsigned value below the limit survives, whatever bytes follow it. */
  lemma {:induction false} UnsignedRoundTrip(v: nat, maxLen: nat, limit: nat, rest: seq<byte>)
    requires maxLen >= 1 && v < limit <= Pow128(maxLen)
    ensures DecodedUnsigned(Unsigned(v) + rest, maxLen, limit) == Decoded(v, |Unsigned(v)|)
  {
    UnsignedIsExact(v, rest);
    UnsignedLength(v, maxLen);
    assert (Unsigned(v) + rest)[..|Unsigned(v)|] == Unsigned(v);
  }

  lemma {:induction false} WrapInRange(v: int, word: nat)
    requires word > 0 && word % 2 == 0
    ensures InRange(Wrap(v, word), word)
    ensures Wrap(v, word) == v <==> InRange(v, word)
  {
    var r := v % word;
    assert 0 <= r < word;
    if InRange(v, word) {
      if v >= 0 {
        DivModUnique(v, 0, v, word);
      } else {
        DivModUnique(v, -1, v + word, word);
      }
    }
  }

  lemma {:induction false} ShortEnough(v: int, maxLen: nat, word: nat, room: nat)
    requires Fits(maxLen, word, room) && InRange(v, word)
    ensures |Signed(v)| <= maxLen
  {
    MulLe(2 * room, 128, Pow128(maxLen - 1));
    SignedLength(v, maxLen);
  }

  /** Reading `n` bytes gives their own value exactly when that is in range. */
  lemma {:induction false} PrefixExactly(s: seq<byte>, n: nat, maxLen: nat, word: nat, room: nat)
    requires 1 <= n <= |s| && n <= maxLen && Fits(maxLen, word, room)
    ensures SignedPrefix(s, n, maxLen, word, room) == Decoded(SignedValue(s[..n]), n) <==>
              InRange(SignedValue(s[..n]), word)
    ensures SignedPrefix(s, n, maxLen, word, room).Decoded? && !InRange(SignedValue(s[..n]), word) <==>
              n == maxLen && SignBitsAgree(s[n - 1], room) && room <= s[n - 1] % 128 < 128 - room
  {
    hide SignedValue;
    RangeByLastByte(s[..n], maxLen, word, room);
    assert word % 2 == 0 by { assert word == 2 * (room * Pow128(maxLen - 1)); }
    WrapInRange(SignedValue(s[..n]), word);
  }

  /** Every value of the word survives, whatever bytes follow it. */
  lemma {:induction false} SignedRoundTrip(v: int, maxLen: nat, word: nat, room: nat, rest: seq<byte>)
    requires Fits(maxLen, word, room) && InRange(v, word)
    ensures DecodedSigned(Signed(v) + rest, maxLen, word, room) == Decoded(v, |Signed(v)|)
  {
    hide Signed;
    hide SignedValue;
    hide Terminator;
    var s, n := Signed(v) + rest, |Signed(v)|;
    SignedIsExact(v, rest);
    ShortEnough(v, maxLen, word, room);
    assert s[..n] == Signed(v);
    PrefixExactly(s, n, maxLen, word, room);
  }

  lemma {:induction false} BlockTypeRoundTrip(v: int, rest: seq<byte>)
    requires InRange(v, WORD33)
    ensures DecodedInt33(Signed(v) + rest) == Decoded(v, |Signed(v)|)
  {
    hide Signed;
    hide SignedPrefix;
    hide Terminator;
    Geometry();
    SignedIsExact(v, rest);
    ShortEnough(v, 5, WORD33, 16);
    SignedRoundTrip(v, 5, WORD33, 16, rest);
  }

  /** The signed decoders accept every terminated string whose value is in range, with that value.
      They accept another string exactly when it has full length and only bit 6 of its last byte
      disagrees with the sign. */
  lemma {:induction false} SignedAcceptsExactly(s: seq<byte>, maxLen: nat, word: nat, room: nat)
    requires Fits(maxLen, word, room)
    ensures var n := Terminator(s);
            var d := DecodedSigned(s, maxLen, word, room);
            if n.None? || n.value > maxLen then d == Rejected
            else
              var v, last := SignedValue(s[..n.value]), s[n.value - 1];
              && (d == Decoded(v, n.value) <==> InRange(v, word))
              && (d != Rejected && !InRange(v, word) <==>
                    n.value == maxLen && SignBitsAgree(last, room) && room <= last < 128 - room)
  {
    hide SignedValue;
    hide SignedPrefix;
    hide Terminator;
    hide InRange;
    hide SignBitsAgree;
    hide Pow128;
    var n := Terminator(s);
    if n.Some? && n.value <= maxLen {
      PrefixExactly(s, n.value, maxLen, word, room);
    }
  }

  /** Five bytes whose value is -2^34 decode as the 32-bit integer 0. */
  lemma {:induction false} OutOfRangeAccepted()
    ensures var s := [0x80, 0x80, 0x80, 0x80, 0x40];
            && DecodedSigned(s, 5, WORD32, 8) == Decoded(0, 5)
            && SignedValue(s) == -0x4_0000_0000
  {
    var s: seq<byte> := [0x80, 0x80, 0x80, 0x80, 0x40];
    assert s[1..] == [0x80, 0x80, 0x80, 0x40] && s[1..][1..] == [0x80, 0x80, 0x40];
    assert s[1..][1..][1..] == [0x80, 0x40] && s[1..][1..][1..][1..] == [0x40];
    assert UnsignedValue([0x40]) == 64;
    assert UnsignedValue([0x80, 0x40]) == 128 * 64;
    assert UnsignedValue([0x80, 0x80, 0x40]) == 128 * (128 * 64);
    Geometry();
    assert Pow128(5) == 128 * Pow128(4);
    assert Terminator([0x40]) == Some(1) && Terminator([0x80, 0x40]) == Some(2);
    assert Terminator([0x80, 0x80, 0x40]) == Some(3);
    assert s[..5] == s;
  }

  /** The 33-bit decoder differs from the other two exactly on five bytes that all continue. */
  lemma {:induction false} UnterminatedAccepted(s: seq<byte>)
    ensures DecodedInt33(s) != DecodedSigned(s, 5, WORD33, 16) <==>
              |s| >= 5 && (forall i :: 0 <= i < 5 ==> s[i] >= 128) && SignBitsAgree(s[4], 16)
  {
    hide SignedValue;
    var n := Terminator(s);
    if n.Some? && n.value <= 5 {
      assert |s| >= 5 ==> s[n.value - 1] < 128;
    }
  }
}
