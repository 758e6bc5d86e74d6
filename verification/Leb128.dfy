/** The encoding and decoding loops (internal/leb128/leb128.go). */
module Leb128 {
  import opened Wrappers
  import opened Arithmetic
  import opened Bytes
  import opened Leb128Spec

  function Pow2(n: nat): (p: nat)
    ensures p >= 1
  {
    if n == 0 then 1 else 2 * Pow2(n - 1)
  }

  /** A left shift in a word of `word` values; shifting past the word gives 0. */
  function ShiftLeft(x: nat, shift: nat, word: nat): (r: nat)
    requires word > 0
    ensures r < word
  {
    x * Pow2(shift) % word
  }

  lemma {:induction false} SevenBits(i: nat)
    ensures Pow2(7 * i) == Pow128(i)
  {
    if i > 0 {
      SevenBits(i - 1);
      var n := 7 * (i - 1);
      assert Pow2(n + 2) == 4 * Pow2(n) && Pow2(n + 4) == 4 * Pow2(n + 2) && Pow2(n + 6) == 4 * Pow2(n + 4);
      assert Pow2(7 * i) == 2 * Pow2(n + 6);
    }
  }

  /** One more byte: the bits so far lie below the shift, so combining them is addition. */
  lemma {:induction false} Accumulate(s: seq<byte>, i: nat, word: nat)
    requires i < |s| && word > 0
    ensures UnsignedValue(s[..i]) < Pow2(7 * i)
    ensures (UnsignedValue(s[..i]) % word + ShiftLeft(s[i] % 128, 7 * i, word)) % word == UnsignedValue(s[..i + 1]) % word
  {
    hide UnsignedValue;
    SevenBits(i);
    LastByte(s[..i + 1]);
    assert s[..i + 1][..i] == s[..i];
    AddMod(UnsignedValue(s[..i]), s[i] % 128 * Pow128(i), word);
  }

  method EncodeUint64(value: uint64) returns (buf: seq<byte>)
    ensures buf == Unsigned(value)
  {
    var v: nat := value;
    buf := [];
    while true
      invariant Unsigned(value) == buf + Unsigned(v)
      decreases v
    {
      var b := v % 128;
      ghost var was := v;
      v := v / 128;
      if v != 0 {
        b := b + 128;
        assert buf + Unsigned(was) == buf + [b] + Unsigned(v);
      }
      buf := buf + [b];
      if b < 128 {
        return;
      }
    }
  }

  /** One byte of a signed integer: the last exactly if the rest is its sign. */
  lemma {:induction false} SignedStep(v: int)
    ensures var b, q := v % 128, v / 128;
            if (q != -1 || b < 64) && (q != 0 || b >= 64)
            then Signed(v) == [b + 128] + Signed(q) && (if q < 0 then -q else q) < (if v < 0 then -v else v)
            else Signed(v) == [b]
  {
    assert v == 128 * (v / 128) + v % 128;
  }

  method EncodeInt64(value: int) returns (buf: seq<byte>)
    requires InRange(value, WORD64)
    ensures buf == Signed(value)
  {
    hide Signed;
    var v := value;
    buf := [];
    assert Signed(value) == [] + Signed(value);
    while true
      invariant Signed(value) == buf + Signed(v)
      decreases if v < 0 then -v else v
    {
      var b := v % 128;
      var negative := b >= 64;
      ghost var was := v;
      SignedStep(v);
      v := v / 128;
      if (v != -1 || !negative) && (v != 0 || negative) {
        b := b + 128;
        assert buf + Signed(was) == buf + [b] + Signed(v);
      }
      buf := buf + [b];
      if b < 128 {
        return;
      }
    }
  }

  // ---- decoding -----------------------------------------------------------------------

  predicate Continues(s: seq<byte>, n: nat)
    requires n <= |s|
  {
    forall k :: 0 <= k < n ==> s[k] >= 128
  }

  lemma {:induction false} EndsAt(s: seq<byte>, i: nat)
    requires i < |s| && Continues(s, i) && s[i] < 128
    ensures Terminator(s) == Some(i + 1)
  {
    hide Terminator;
    var n := Terminator(s);
    assert n.Some? && s[n.value - 1] < 128;
  }

  lemma {:induction false} GoesOn(s: seq<byte>, i: nat)
    requires i <= |s| && Continues(s, i)
    ensures var n := Terminator(s); n.None? || n.value > i
    ensures i == |s| ==> Terminator(s) == None
  {
    hide Terminator;
    var n := Terminator(s);
    if n.Some? {
      assert s[n.value - 1] < 128;
    }
  }

  /** A value fits below `top` times the weight of the last byte exactly when that byte does. */
  lemma {:induction false} BoundByLastByte(s: seq<byte>, maxLen: nat, top: nat, limit: nat)
    requires 1 <= |s| <= maxLen && 1 <= top <= 64 && limit == top * Pow128(maxLen - 1)
    ensures UnsignedValue(s) < limit <==> |s| < maxLen || s[|s| - 1] % 128 < top
  {
    hide UnsignedValue;
    hide Pow128;
    LastByte(s);
    if |s| == maxLen {
      ScaleDigit(s[|s| - 1] % 128, top, Pow128(|s| - 1), UnsignedValue(s[..|s| - 1]));
    } else {
      PowMonotone(|s|, maxLen - 1);
      MulLe(1, top, Pow128(maxLen - 1));
    }
  }

  method DecodeUint32(s: seq<byte>) returns (r: Decoded)
    ensures r == DecodedUnsigned(s, 5, WORD32)
  {
    hide Terminator;
    hide UnsignedValue;
    hide ShiftLeft;
    hide Pow2;
    hide Pow128;
    hide Fits;
    var ret: nat, shift: nat := 0, 0;
    NoBytes(s);
    for i := 0 to 5
      invariant i <= |s| && shift == 7 * i && Continues(s, i) && ret == UnsignedValue(s[..i]) % WORD32
    {
      if i >= |s| {
        GoesOn(s, i);
        return Rejected;
      }
      var b := s[i];
      Accumulate(s, i, WORD32);
      if b < 128 {
        EndsAt(s, i);
        Geometry();
        BoundByLastByte(s[..i + 1], 5, 16, WORD32);
        if i == 4 && b >= 16 {
          return Rejected;
        }
        assert UnsignedValue(s[..i + 1]) % WORD32 == UnsignedValue(s[..i + 1]);
        return Decoded((ret + ShiftLeft(b, shift, WORD32)) % WORD32, i + 1);
      }
      ret := (ret + ShiftLeft(b % 128, shift, WORD32)) % WORD32;
      shift := shift + 7;
    }
    GoesOn(s, 5);
    r := Rejected;
  }

  lemma {:induction false} NoBytes(s: seq<byte>)
    ensures UnsignedValue(s[..0]) == 0
  {
  }

  method LoadUint64(s: seq<byte>) returns (r: Decoded)
    ensures r == DecodedUnsigned(s, 10, WORD64)
  {
    hide Terminator;
    hide UnsignedValue;
    hide ShiftLeft;
    hide Pow2;
    hide Pow128;
    hide Fits;
    if |s| == 0 {
      GoesOn(s, 0);
      return Rejected;
    }
    var ret: nat, shift: nat := 0, 0;
    NoBytes(s);
    for i := 0 to 10
      invariant i <= |s| && shift == 7 * i && Continues(s, i) && ret == UnsignedValue(s[..i]) % WORD64
    {
      if i >= |s| {
        GoesOn(s, i);
        return Rejected;
      }
      var b := s[i];
      Accumulate(s, i, WORD64);
      if b < 128 {
        EndsAt(s, i);
        Geometry();
        BoundByLastByte(s[..i + 1], 10, 2, WORD64);
        if i == 9 && b > 1 {
          return Rejected;
        }
        assert UnsignedValue(s[..i + 1]) % WORD64 == UnsignedValue(s[..i + 1]);
        return Decoded((ret + ShiftLeft(b, shift, WORD64)) % WORD64, i + 1);
      }
      ret := (ret + ShiftLeft(b % 128, shift, WORD64)) % WORD64;
      shift := shift + 7;
    }
    GoesOn(s, 10);
    r := Rejected;
  }

  /** The word a signed decoder holds after `n` bytes, sign-extended when there is room above. */
  function Extended(s: seq<byte>, n: nat, maxLen: nat, word: nat): int
    requires 1 <= n <= |s| && word > 0
  {
    var u := UnsignedValue(s[..n]) % word;
    if n < maxLen && s[n - 1] % 128 >= 64 then u + word - Pow128(n) else u
  }

  function AsSigned(u: int, word: nat): int { if 2 * u >= word then u - word else u }

  predicate SignWeight(room: nat) { room == 1 || room == 8 || room == 16 }

  /** A full-length word: its sign is the bit of weight `room` of the last byte. */
  lemma {:induction false} FullLength(s: seq<byte>, maxLen: nat, word: nat, room: nat)
    requires |s| == maxLen && Fits(maxLen, word, room) && SignWeight(room)
    ensures var u := UnsignedValue(s) % word;
            && AsSigned(u, word) == Wrap(SignedValue(s), word)
            && (2 * u >= word <==> s[|s| - 1] % (2 * room) >= room)
  {
    hide UnsignedValue;
    hide Pow128;
    var p, d, low := Pow128(|s| - 1), s[|s| - 1] % 128, UnsignedValue(s[..|s| - 1]);
    LastByte(s);
    PowStep(|s|);
    FullNumber(low, d, p, room, word);
    SignByte(s[|s| - 1], room);
    hide Fits;
    assert SignedValue(s) == low + d * p - if d >= 64 then 128 * p else 0;
  }

  lemma {:induction false} FullNumber(low: nat, d: nat, p: nat, room: nat, word: nat)
    requires low < p && d < 128 && SignWeight(room) && word == 2 * room * p && word > 0
    ensures 2 * ((low + d * p) % word) >= word <==> d % (2 * room) >= room
    ensures (low + d * p - if d >= 64 then 128 * p else 0) % word == (low + d * p) % word
  {
    var e := d % (2 * room);
    FullWord(low, d, p, 2 * room, word, d / (2 * room), e);
    TopBit(low, e, p, room);
    assert word == 2 * (room * p);
    SignOfWord(low, d, p, room, word);
  }

  lemma {:induction false} FullWord(low: nat, d: nat, p: nat, half: nat, word: nat, q: nat, e: nat)
    requires low < p && e < half && d == q * half + e && word == half * p
    ensures word > 0 && (low + d * p) % word == low + e * p
  {
    SplitDigit(low, d, p, half, q, e);
    DivModUnique(low + d * p, q, low + e * p, word);
  }

  lemma {:induction false} SplitDigit(low: nat, d: nat, p: nat, half: nat, q: nat, e: nat)
    requires low < p && e < half && d == q * half + e
    ensures low + d * p == q * (half * p) + (low + e * p)
    ensures low + e * p < half * p
  {
    Distribute(q * half, e, p);
    assert q * half * p == q * (half * p);
    MulLe(e + 1, half, p);
    Distribute(e, 1, p);
  }

  lemma {:induction false} TopBit(low: nat, e: nat, p: nat, room: nat)
    requires low < p
    ensures low + e * p >= room * p <==> e >= room
  {
    if e >= room {
      MulLe(room, e, p);
    } else {
      MulLe(e + 1, room, p);
      Distribute(e, 1, p);
    }
  }

  lemma {:induction false} SignOfWord(low: nat, d: nat, p: nat, room: nat, word: nat)
    requires low < p && d < 128 && SignWeight(room) && word == 2 * room * p && word > 0
    ensures (low + d * p - if d >= 64 then 128 * p else 0) % word == (low + d * p) % word
  {
    if d >= 64 {
      var k, x := if room == 1 then 64 else if room == 8 then 8 else 4, low + d * p;
      assert k * word == 128 * p;
      Distribute(x / word, -k, word);
      DivModUnique(x - 128 * p, x / word - k, x % word, word);
    }
  }

  lemma {:induction false} SignByte(b: byte, room: nat)
    requires SignWeight(room)
    ensures b % 128 % (2 * room) == b % (2 * room)
  {
    LowBits(b);
  }

  lemma {:induction false} LowBits(b: byte)
    ensures b % 128 % 2 == b % 2 && b % 128 % 16 == b % 16 && b % 128 % 32 == b % 32
  {
    var q, e := b / 128, b % 128;
    DivModUnique(b, 64 * q + e / 2, e % 2, 2);
    DivModUnique(b, 8 * q + e / 16, e % 16, 16);
    DivModUnique(b, 4 * q + e / 32, e % 32, 32);
  }

  /** A shorter word: extending its sign gives its value. */
  lemma {:induction false} ShortLength(s: seq<byte>, maxLen: nat, word: nat, room: nat)
    requires 1 <= |s| < maxLen && Fits(maxLen, word, room)
    ensures AsSigned(Extended(s, |s|, maxLen, word), word) == Wrap(SignedValue(s), word)
    ensures UnsignedValue(s) < word
  {
    hide UnsignedValue;
    hide Pow128;
    RangeByLastByte(s, maxLen, word, room);
    PowMonotone(|s|, maxLen - 1);
    MulLe(1, room, Pow128(maxLen - 1));
    assert s[..|s|] == s;
    DivModUnique(UnsignedValue(s), 0, UnsignedValue(s), word);
    assert word % 2 == 0 by { assert word == 2 * (room * Pow128(maxLen - 1)); }
    WrapInRange(SignedValue(s), word);
  }

  /** The shared last step: what a decoder makes of the first `n` bytes. */
  lemma {:induction false} DecodedPrefix(s: seq<byte>, n: nat, maxLen: nat, word: nat, room: nat)
    requires 1 <= n <= |s| && n <= maxLen && Fits(maxLen, word, room) && SignWeight(room)
    ensures AsSigned(Extended(s, n, maxLen, word), word) == Wrap(SignedValue(s[..n]), word)
    ensures n < maxLen ==> UnsignedValue(s[..n]) % word == UnsignedValue(s[..n]) < Pow128(n)
    ensures n == maxLen ==>
              (2 * Extended(s, n, maxLen, word) >= word <==> s[n - 1] % (2 * room) >= room)
  {
    hide SignedValue;
    hide UnsignedValue;
    hide Pow128;
    var t := s[..n];
    assert t[..n] == t && t[n - 1] == s[n - 1];
    if n == maxLen {
      FullLength(t, maxLen, word, room);
    } else {
      ShortLength(t, maxLen, word, room);
      DivModUnique(UnsignedValue(t), 0, UnsignedValue(t), word);
    }
  }

  /** The bits above the sign of a full-length word, as the decoders look at them. */
  lemma {:induction false} SpareBits(b: byte)
    ensures b / 16 % 4 == (if b % 16 >= 8 then 3 else 0) <==> SignBitsAgree(b, 8)
    ensures b / 2 % 32 == (if b % 2 >= 1 then 31 else 0) <==> SignBitsAgree(b, 1)
  {
    SpareBits32(b);
    SpareBits64(b);
  }

  lemma {:induction false} SpareBits32(b: byte)
    ensures b % 64 == 16 * (b / 16 % 4) + b % 16
  {
    var k := b / 16;
    assert b == 64 * (k / 4) + (16 * (k % 4) + b % 16);
  }

  lemma {:induction false} SpareBits64(b: byte)
    ensures b % 64 == 2 * (b / 2 % 32) + b % 2
  {
    var k := b / 2;
    assert b == 64 * (k / 32) + (2 * (k % 32) + b % 2);
  }

  /** Sign extension and the overflow checks on the byte that ends a 32-bit integer. */
  method ConcludeInt32(s: seq<byte>, n: nat, bits: int) returns (r: Decoded)
    requires 1 <= n <= |s| && bits == UnsignedValue(s[..n]) % WORD32
    ensures r == if n > 5 then Rejected else SignedPrefix(s, n, 5, WORD32, 8)
  {
    hide UnsignedValue;
    hide SignedValue;
    hide Pow128;
    hide Pow2;
    var ret, shift, b := bits, 7 * n, s[n - 1];
    if n > 5 {
      return Rejected;
    }
    Geometry();
    DecodedPrefix(s, n, 5, WORD32, 8);
    SevenBits(n);
    SpareBits(b);
    hide Fits;
    hide SignBitsAgree;
    hide Wrap;
    if shift < 32 && b % 128 >= 64 {
      ret := ret + (WORD32 - Pow2(shift));
    }
    var value, unused := AsSigned(ret, WORD32), b / 16 % 4;
    if n == 5 && value < 0 && unused != 3 {
      return Rejected;
    } else if n == 5 && value >= 0 && unused != 0 {
      return Rejected;
    }
    r := Decoded(value, n);
  }

  method DecodeInt32(s: seq<byte>) returns (r: Decoded)
    ensures r == DecodedSigned(s, 5, WORD32, 8)
  {
    hide Terminator;
    hide UnsignedValue;
    hide SignedPrefix;
    hide ShiftLeft;
    var ret: nat, shift: nat, bytesRead: nat := 0, 0, 0;
    NoBytes(s);
    while true
      invariant bytesRead <= |s| && shift == 7 * bytesRead && Continues(s, bytesRead)
      invariant ret == UnsignedValue(s[..bytesRead]) % WORD32
      decreases |s| - bytesRead
    {
      if bytesRead >= |s| {
        GoesOn(s, bytesRead);
        return Rejected;
      }
      var b := s[bytesRead];
      Accumulate(s, bytesRead, WORD32);
      ret := (ret + ShiftLeft(b % 128, shift, WORD32)) % WORD32;
      shift := shift + 7;
      bytesRead := bytesRead + 1;
      if b < 128 {
        EndsAt(s, bytesRead - 1);
        r := ConcludeInt32(s, bytesRead, ret);
        return;
      }
    }
  }

  /** The same for a 64-bit integer. */
  method ConcludeInt64(s: seq<byte>, n: nat, bits: int) returns (r: Decoded)
    requires 1 <= n <= |s| && bits == UnsignedValue(s[..n]) % WORD64
    ensures r == if n > 10 then Rejected else SignedPrefix(s, n, 10, WORD64, 1)
  {
    hide UnsignedValue;
    hide SignedValue;
    hide Pow128;
    hide Pow2;
    var ret, shift, b := bits, 7 * n, s[n - 1];
    if n > 10 {
      return Rejected;
    }
    Geometry();
    DecodedPrefix(s, n, 10, WORD64, 1);
    SevenBits(n);
    SpareBits(b);
    hide Fits;
    hide SignBitsAgree;
    hide Wrap;
    if shift < 64 && b % 128 >= 64 {
      ret := ret + (WORD64 - Pow2(shift));
    }
    var value, unused := AsSigned(ret, WORD64), b / 2 % 32;
    if n == 10 && value < 0 && unused != 31 {
      return Rejected;
    } else if n == 10 && value >= 0 && unused != 0 {
      return Rejected;
    }
    r := Decoded(value, n);
  }

  method DecodeInt64(s: seq<byte>) returns (r: Decoded)
    ensures r == DecodedSigned(s, 10, WORD64, 1)
  {
    hide Terminator;
    hide UnsignedValue;
    hide SignedPrefix;
    hide ShiftLeft;
    var ret: nat, shift: nat, bytesRead: nat := 0, 0, 0;
    NoBytes(s);
    while true
      invariant bytesRead <= |s| && shift == 7 * bytesRead && Continues(s, bytesRead)
      invariant ret == UnsignedValue(s[..bytesRead]) % WORD64
      decreases |s| - bytesRead
    {
      if bytesRead >= |s| {
        GoesOn(s, bytesRead);
        return Rejected;
      }
      var b := s[bytesRead];
      Accumulate(s, bytesRead, WORD64);
      ret := (ret + ShiftLeft(b % 128, shift, WORD64)) % WORD64;
      shift := shift + 7;
      bytesRead := bytesRead + 1;
      if b < 128 {
        EndsAt(s, bytesRead - 1);
        r := ConcludeInt64(s, bytesRead, ret);
        return;
      }
    }
  }

  /** The same for a 33-bit block type, on the byte that ends it or the fifth one. */
  method ConcludeInt33(s: seq<byte>, n: nat, bits: int) returns (r: Decoded)
    requires 1 <= n <= |s| && n <= 5 && bits == UnsignedValue(s[..n])
    ensures r == SignedPrefix(s, n, 5, WORD33, 16)
  {
    hide UnsignedValue;
    hide SignedValue;
    hide Pow128;
    hide Pow2;
    var ret, shift, b := bits, 7 * n, s[n - 1];
    Geometry();
    DecodedPrefix(s, n, 5, WORD33, 16);
    SevenBits(n);
    if shift < 33 && b % 128 >= 64 {
      PowMonotone(n, 4);
      MaskedExtension(ret, Pow2(shift));
      ret := ret + (WORD33 - 1) * Pow2(shift);
    }
    ret := ret % WORD33;
    var value, unused := AsSigned(ret, WORD33), b / 32 % 2;
    if n == 5 && value < 0 && unused != 1 {
      return Rejected;
    } else if n == 5 && value >= 0 && unused != 0 {
      return Rejected;
    }
    r := Decoded(value, n);
  }

  lemma {:induction false} MaskedExtension(u: int, p: nat)
    requires 0 <= u < p < WORD33
    ensures (u + (WORD33 - 1) * p) % WORD33 == u + WORD33 - p
  {
    assert u + (WORD33 - 1) * p == (p - 1) * WORD33 + (u + WORD33 - p);
    DivModUnique(u + (WORD33 - 1) * p, p - 1, u + WORD33 - p, WORD33);
  }

  method DecodeInt33AsInt64(s: seq<byte>) returns (r: Decoded)
    ensures r == DecodedInt33(s)
  {
    hide Terminator;
    hide UnsignedValue;
    hide SignedPrefix;
    hide Pow2;
    var ret: nat, shift: nat, bytesRead: nat := 0, 0, 0;
    NoBytes(s);
    while shift < 35
      invariant bytesRead <= |s| && shift == 7 * bytesRead && shift <= 35 && Continues(s, bytesRead)
      invariant ret == UnsignedValue(s[..bytesRead])
    {
      if bytesRead >= |s| {
        GoesOn(s, bytesRead);
        return Rejected;
      }
      var b := s[bytesRead];
      NextByte(s, bytesRead);
      ret := ret + b % 128 * Pow2(shift);
      shift := shift + 7;
      bytesRead := bytesRead + 1;
      if b < 128 {
        EndsAt(s, bytesRead - 1);
        r := ConcludeInt33(s, bytesRead, ret);
        return;
      }
    }
    GoesOn(s, 5);
    r := ConcludeInt33(s, bytesRead, ret);
  }

  /** A 64-bit accumulator has room for all five bytes. */
  lemma {:induction false} NextByte(s: seq<byte>, i: nat)
    requires i < |s|
    ensures UnsignedValue(s[..i]) < Pow2(7 * i)
    ensures UnsignedValue(s[..i]) + s[i] % 128 * Pow2(7 * i) == UnsignedValue(s[..i + 1])
  {
    hide UnsignedValue;
    SevenBits(i);
    LastByte(s[..i + 1]);
    assert s[..i + 1][..i] == s[..i];
  }
}
